/**
  The values the decoder exchanges with Go's standard library and
  golang.org/x/text, and those libraries themselves.

  The grammars the decoder delegates to (net/mail, mime.ParseMediaType,
  the multipart boundary splitter, the RFC 2047 word decoder, the base64
  and quoted-printable decoders, the charmap tables, time.Parse and
  filepath.Base) are not re-implemented: each is a function-valued field
  of `Library`, and `Library.Valid()` collects the few facts about them
  that the decoder's own behaviour depends on.
*/
module Platform {
  import opened GoStrings

  datatype Option<+T> = None | Some(value: T)

  /** A mail.Header or textproto.MIMEHeader: canonical field name to its values, in order. */
  type Header = map<string, seq<string>>

  /**
    textproto.CanonicalMIMEHeaderKey for a field name made of token bytes:
    the first byte and every byte after a '-' upper-cased, the others lower-cased.
  */
  function CanonicalKey(name: string): (r: string)
    ensures |r| == |name|
  {
    CanonicalFrom(name, true)
  }

  function CanonicalFrom(name: string, upper: bool): (r: string)
    ensures |r| == |name|
  {
    if name == [] then []
    else
      var c := if upper then UpperChar(name[0]) else LowerChar(name[0]);
      [c] + CanonicalFrom(name[1..], name[0] == '-')
  }

  /** Header.Get: the first value of the field, or "" when it is absent. */
  function Get(h: Header, name: string): string {
    var key := CanonicalKey(name);
    if key in h && |h[key]| > 0 then h[key][0] else ""
  }

  /** A Go map lookup of a parameter: "" when the key is absent. */
  function Param(params: map<string, string>, key: string): string {
    if key in params then params[key] else ""
  }

  /**
    A message as mail.ReadMessage returns it: its header block and its body
    reader.  `body` is what a read of the body yields, and `unreadable`
    says that the read ends in an error instead of io.EOF (the reader
    ParseEmail was given failed, say on a size limit or a dropped
    connection).
  */
  datatype Message = Message(header: Header, body: string, unreadable: bool)

  /**
    One part of a multipart body, as multipart.Reader.NextPart delivers it.
    NextPart decodes a part whose Content-Transfer-Encoding is
    quoted-printable (section 6.7 of RFC 2045) while the part is read, and
    deletes that header; `body` is what a read of the part yields, and
    `unreadable` says that the read ends in an error instead of io.EOF:
    malformed quoted-printable input, or a part cut off before its closing
    delimiter (io.ErrUnexpectedEOF), whatever its transfer encoding.
  */
  datatype Part = Part(header: Header, body: string, unreadable: bool)

  /**
    Everything NextPart returns for one multipart body: the parts in order,
    and then either io.EOF (`failed` is false) or an error (`failed` is true).
  */
  datatype PartStream = PartStream(parts: seq<Part>, failed: bool)

  /** The result of mime.ParseMediaType: the lower-cased media type and its parameters. */
  datatype MediaType = MediaType(mediaType: string, params: map<string, string>)

  /** A mail.Address. */
  datatype Address = Address(name: string, address: string)

  /** A time.Time; `ZeroTime` is Go's zero value time.Time{}. */
  datatype Time = ZeroTime | Instant(unixSeconds: int, nanos: int, zoneOffset: int)

  /** The four single-byte charmaps of golang.org/x/text that the decoder knows. */
  datatype Charset = Windows1252 | ISO8859_1 | KOI8R | Windows1251

  datatype Library = Library(
    /** mail.ReadMessage; None is its error. */
    readMessage: string -> Option<Message>,
    /** mime.ParseMediaType; None is its error. */
    parseMediaType: string -> Option<MediaType>,
    /**
      multipart.NewReader(body, boundary) followed by NextPart until it
      stops.  NextPart itself undoes a quoted-printable transfer encoding
      and drops that Content-Transfer-Encoding field, so such a part
      arrives decoded and without the field.
    */
    nextParts: (string, string) -> PartStream,
    /** mime.WordDecoder.Decode on one RFC 2047 encoded word; None is its error. */
    decodeWord: string -> Option<string>,
    /** Reading all of base64.NewDecoder(base64.StdEncoding, ...); None is a read error. */
    decodeBase64: string -> Option<string>,
    /** Reading all of quotedprintable.NewReader(...); None is a read error. */
    decodeQuotedPrintable: string -> Option<string>,
    /** The UTF-8 bytes a charmap decoder writes for one input byte. */
    charmap: (Charset, char) -> string,
    /** mail.ParseAddress; None is its error. */
    parseAddress: string -> Option<Address>,
    /** mail.ParseAddressList; None is its error. */
    parseAddressList: string -> Option<seq<Address>>,
    /** time.Parse(layout, value); None is its error. */
    parseTime: (string, string) -> Option<Time>,
    /** filepath.Base. */
    baseName: string -> string
  ) {
    /** The facts about the libraries that the decoder relies on. */
    ghost predicate Valid() {
      // every part the splitter delivers lies strictly inside the body it split
      && (forall body, boundary :: Shrinks(nextParts(body, boundary), body))
      // NextPart removes a quoted-printable Content-Transfer-Encoding while it decodes the part
      && (forall body, boundary :: Delivered(nextParts(body, boundary)))
      // mime.ParseMediaType("") fails with "mime: no media type"
      && parseMediaType("").None?
      // mime.WordDecoder.Decode rejects anything not shaped "=?...?=" of at least 8 bytes
      && (forall w :: decodeWord(w).Some? ==> |w| >= 8 && HasPrefix(w, "=?") && HasSuffix(w, "?="))
      // the four charmaps are ASCII supersets
      && (forall cs, c :: c < 128 as char ==> charmap(cs, c) == [c])
      // filepath.Base never returns the empty string
      && (forall p :: baseName(p) != "")
    }
  }

  /** What NextPart has done to the header of a part it delivered: no quoted-printable Content-Transfer-Encoding is left. */
  predicate AsDelivered(p: Part) {
    ToLower(Get(p.header, "Content-Transfer-Encoding")) != "quoted-printable"
  }

  /** Every part of the stream is as NextPart leaves it. */
  predicate Delivered(st: PartStream) {
    forall i :: 0 <= i < |st.parts| ==> AsDelivered(st.parts[i])
  }

  /** Every part of the stream is strictly shorter than the body it came from. */
  predicate Shrinks(st: PartStream, body: string) {
    forall i :: 0 <= i < |st.parts| ==> |st.parts[i].body| < |body|
  }

  /**
    multipart.Part.FileName: the `filename` parameter of the part's
    Content-Disposition (through filepath.Base), or "" when there is none
    or the disposition does not parse.
  */
  function FileName(lib: Library, p: Part): (r: string)
    ensures lib.Valid() ==> (r != "" <==> (
      && lib.parseMediaType(Get(p.header, "Content-Disposition")).Some?
      && Param(lib.parseMediaType(Get(p.header, "Content-Disposition")).value.params, "filename") != ""))
  {
    match lib.parseMediaType(Get(p.header, "Content-Disposition"))
    case None => ""
    case Some(disposition) =>
      var filename := Param(disposition.params, "filename");
      if filename == "" then "" else lib.baseName(filename)
  }
}
