/**
  Transfer-encoding and charset dispatch: decodeCharset and decodeContent
  (parser.go:188-209, 479-512).

  A body is a byte string.  The base64 (section 6.8 of RFC 2045) and
  quoted-printable (section 6.7 of RFC 2045) decoders and the four
  single-byte charmaps are the `Library` fields of the Platform module.
*/
module TransferDecoding {
  import opened GoStrings
  import opened Platform
  import opened EmailTypes

  /** The literal decodeCharset looks for. */
  const CharsetMarker: string := "; charset="

  /** The bytes trimmed from both ends of the charset name. */
  const NameCutset: string := [' ', '"', '\'', '\n', '\r']

  /**
    The charset name decodeCharset looks up: "default" when the header has
    no "; charset=", otherwise the text between the first and the second
    occurrence of it (or the end), trimmed and lower-cased.
  */
  function CharsetName(contentType: string): (r: string)
    ensures !Contains(contentType, CharsetMarker) ==> r == "default"
  {
    if Contains(contentType, CharsetMarker) then
      SplitFirst(contentType, CharsetMarker);
      ToLower(Trim(Split(contentType, CharsetMarker)[1], NameCutset))
    else "default"
  }

  /** The lookup table of decodeCharset. */
  function CharsetOf(name: string): (r: Option<Charset>)
    ensures r.Some? <==> name in {"windows-1252", "iso-8859-1", "koi8-r", "windows-1251"}
    ensures name == "koi8-r" ==> r == Some(KOI8R)
  {
    if name == "windows-1252" then Some(Windows1252)
    else if name == "iso-8859-1" then Some(ISO8859_1)
    else if name == "koi8-r" then Some(KOI8R)
    else if name == "windows-1251" then Some(Windows1251)
    else None
  }

  /** The charmap decodeCharset applies, if any. */
  function SelectedCharset(contentType: string): Option<Charset> {
    var name := CharsetName(contentType);
    if name != "default" then CharsetOf(name) else None
  }

  /** What a charmap decoder writes for `bytes`: the table entry of each byte, in order. */
  function Transcode(lib: Library, cs: Charset, bytes: string): (r: string)
    ensures bytes == [] ==> r == []
  {
    if bytes == [] then [] else lib.charmap(cs, bytes[0]) + Transcode(lib, cs, bytes[1..])
  }

  /**
    decodeCharset: the bytes as they are, or through the charmap the
    header's charset names.
  */
  function DecodeCharset(lib: Library, content: string, contentType: string): (r: string)
    ensures SelectedCharset(contentType).None? ==> r == content
    ensures SelectedCharset(contentType).Some? ==>
              r == Transcode(lib, SelectedCharset(contentType).value, content)
  {
    match SelectedCharset(contentType)
    case None => content
    case Some(cs) => Transcode(lib, cs, content)
  }

  /**
    The reader decodeContent hands back, read to the end (`data`), and what
    is still unread in the part it was given (`unread`): every encoding but
    the empty one drains the part before returning.
  */
  datatype Decoded = Decoded(data: string, unread: string)

  /** The transfer encodings decodeContent accepts, once lower-cased. */
  predicate KnownEncoding(lowered: string) {
    lowered in {"base64", "quoted-printable", "7bit", "8bit", ""}
  }

  /** decodeContent. */
  function DecodeContent(lib: Library, content: string, encoding: string, contentType: string): (r: Result<Decoded>)
    ensures r.Err? && r.error.UnknownEncoding? <==> !KnownEncoding(ToLower(encoding))
    ensures r.Err? ==> r.error == UnknownEncoding(encoding) || r.error == MalformedPayload(encoding)
    ensures ToLower(encoding) in {"7bit", "8bit", ""} ==>
              r.Ok? && r.value.data == DecodeCharset(lib, content, contentType)
    ensures ToLower(encoding) == "base64" ==>
              (r.Ok? <==> lib.decodeBase64(content).Some?) &&
              (r.Ok? ==> r.value.data == DecodeCharset(lib, lib.decodeBase64(content).value, contentType))
    ensures ToLower(encoding) == "quoted-printable" ==>
              (r.Ok? <==> lib.decodeQuotedPrintable(content).Some?) &&
              (r.Ok? ==> r.value.data == DecodeCharset(lib, lib.decodeQuotedPrintable(content).value, contentType))
    ensures r.Ok? ==> r.value.unread == (if ToLower(encoding) == "" then content else "")
  {
    var lowered := ToLower(encoding);
    if lowered == "base64" then
      match lib.decodeBase64(content)
      case None => Err(MalformedPayload(encoding))
      case Some(b) => Ok(Decoded(DecodeCharset(lib, b, contentType), ""))
    else if lowered == "7bit" || lowered == "8bit" then
      Ok(Decoded(DecodeCharset(lib, content, contentType), ""))
    else if lowered == "quoted-printable" then
      match lib.decodeQuotedPrintable(content)
      case None => Err(MalformedPayload(encoding))
      case Some(b) => Ok(Decoded(DecodeCharset(lib, b, contentType), ""))
    else if lowered == "" then
      Ok(Decoded(DecodeCharset(lib, content, contentType), content))
    else
      Err(UnknownEncoding(encoding))
  }

  // ---------------------------------------------------------------------
  // Properties

  /** Transcoding works byte by byte: it distributes over concatenation. */
  lemma {:induction false} TranscodeConcat(lib: Library, cs: Charset, a: string, b: string)
    ensures Transcode(lib, cs, a + b) == Transcode(lib, cs, a) + Transcode(lib, cs, b)
    decreases |a|
  {
    if a == [] {
      assert a + b == b;
    } else {
      assert (a + b)[0] == a[0];
      assert (a + b)[1..] == a[1..] + b;
      TranscodeConcat(lib, cs, a[1..], b);
      var head := lib.charmap(cs, a[0]);
      assert head + (Transcode(lib, cs, a[1..]) + Transcode(lib, cs, b)) ==
             (head + Transcode(lib, cs, a[1..])) + Transcode(lib, cs, b);
    }
  }

  /** The four charmaps leave ASCII text as it is. */
  lemma {:induction false} TranscodeAscii(lib: Library, cs: Charset, bytes: string)
    requires lib.Valid()
    requires forall i :: 0 <= i < |bytes| ==> bytes[i] < 128 as char
    ensures Transcode(lib, cs, bytes) == bytes
    decreases |bytes|
  {
    if bytes != [] {
      TranscodeAscii(lib, cs, bytes[1..]);
    }
  }

  /** decodeCharset changes the bytes only when the charset name is one of the four of the table. */
  lemma DecodeCharsetOnlyForKnownNames(lib: Library, content: string, contentType: string)
    requires CharsetName(contentType) !in {"windows-1252", "iso-8859-1", "koi8-r", "windows-1251"}
    ensures DecodeCharset(lib, content, contentType) == content
  {
  }

  /** An ASCII body comes out of decodeCharset unchanged, whatever the header names. */
  lemma DecodeCharsetKeepsAscii(lib: Library, content: string, contentType: string)
    requires lib.Valid()
    requires forall i :: 0 <= i < |content| ==> content[i] < 128 as char
    ensures DecodeCharset(lib, content, contentType) == content
  {
    if SelectedCharset(contentType).Some? {
      TranscodeAscii(lib, SelectedCharset(contentType).value, content);
    }
  }

  /** No name of the table holds a ';'. */
  lemma TableNamesHaveNoSemicolon(name: string)
    requires ';' in name
    ensures CharsetOf(name).None?
  {
  }

  /** Lower-casing keeps a byte that is not a letter. */
  lemma ToLowerKeeps(s: string, c: char)
    requires c in s && !('A' <= c <= 'Z')
    ensures c in ToLower(s)
  {
    var j :| 0 <= j < |s| && s[j] == c;
    ToLowerAt(s, j);
  }

  /** The name is the text after "; charset=" when that text holds no second marker. */
  lemma CharsetNameAfterMarker(mediaType: string, value: string)
    requires ';' !in mediaType && Index(value, CharsetMarker) < 0
    ensures CharsetName(mediaType + CharsetMarker + value) == ToLower(Trim(value, NameCutset))
  {
    SplitCons(mediaType, CharsetMarker, value);
    IndexAfter(mediaType, CharsetMarker, value);
  }

  /** Trimming and lower-casing keep a ';'. */
  lemma SemicolonSurvivesNormalising(value: string)
    requires ';' in value
    ensures ';' in ToLower(Trim(value, NameCutset))
  {
    TrimKeepsOthers(value, NameCutset, ';');
    ToLowerKeeps(Trim(value, NameCutset), ';');
  }

  /** A ';' in the text after the marker stays in the name. */
  lemma SemicolonStaysInName(mediaType: string, value: string)
    requires ';' !in mediaType && ';' in value && Index(value, CharsetMarker) < 0
    ensures ';' in CharsetName(mediaType + CharsetMarker + value)
  {
    CharsetNameAfterMarker(mediaType, value);
    SemicolonSurvivesNormalising(value);
  }

  /**
    A parameter after the charset, as in "text/plain; charset=koi8-r; format=flowed",
    ends up inside the name, so no charmap is applied.
  */
  lemma FollowingParameterDefeatsLookup(lib: Library, content: string, mediaType: string, value: string)
    requires ';' !in mediaType && ';' in value && Index(value, CharsetMarker) < 0
    ensures DecodeCharset(lib, content, mediaType + CharsetMarker + value) == content
  {
    SemicolonStaysInName(mediaType, value);
    TableNamesHaveNoSemicolon(CharsetName(mediaType + CharsetMarker + value));
  }

  /** Without the space of "; charset=", as in ";charset=koi8-r", the name is "default". */
  lemma MarkerNeedsTheSpace(lib: Library, content: string, contentType: string)
    requires forall i :: 0 <= i < |contentType| - 1 && contentType[i] == ';' ==> contentType[i + 1] != ' '
    ensures CharsetName(contentType) == "default"
    ensures DecodeCharset(lib, content, contentType) == content
  {
    var k := Index(contentType, CharsetMarker);
    if k >= 0 {
      OccursAtByte(contentType, CharsetMarker, k, 0);
      OccursAtByte(contentType, CharsetMarker, k, 1);
      assert false;
    }
  }

  /** The quotes and the case of `"KOI8-R"` do not survive the trimming and lower-casing. */
  lemma QuotedKoi8Name()
    ensures ToLower(Trim("\"" + "KOI8-R" + "\"", NameCutset)) == "koi8-r"
  {
    TrimWrapped('"', "KOI8-R", '"', NameCutset);
  }

  /** A quoted, upper-case name, as in `; charset="KOI8-R"`, still selects its charmap. */
  lemma QuotedUpperCaseNameSelects(lib: Library, content: string, mediaType: string)
    requires ';' !in mediaType
    ensures DecodeCharset(lib, content, mediaType + CharsetMarker + ("\"" + "KOI8-R" + "\"")) ==
              Transcode(lib, KOI8R, content)
  {
    var value := "\"" + "KOI8-R" + "\"";
    IndexAbsent(value, CharsetMarker);
    CharsetNameAfterMarker(mediaType, value);
    QuotedKoi8Name();
  }

  /** The encoding name is matched case-insensitively: "Base64" is base64. */
  lemma EncodingNameIgnoresCase(lib: Library, content: string, e1: string, e2: string, contentType: string)
    requires ToLower(e1) == ToLower(e2)
    ensures DecodeContent(lib, content, e1, contentType).Ok? == DecodeContent(lib, content, e2, contentType).Ok?
    ensures DecodeContent(lib, content, e1, contentType).Ok? ==>
              DecodeContent(lib, content, e1, contentType) == DecodeContent(lib, content, e2, contentType)
  {
  }

  /** "Base64" is accepted and decoded as base64. */
  lemma MixedCaseBase64IsAccepted(lib: Library, content: string, contentType: string)
    ensures DecodeContent(lib, content, "Base64", contentType).Ok? == lib.decodeBase64(content).Some?
    ensures lib.decodeBase64(content).Some? ==>
              DecodeContent(lib, content, "Base64", contentType) == DecodeContent(lib, content, "base64", contentType)
  {
    assert ToLower("Base64") == "base64";
  }

  /** Without a transfer encoding, the content reaches decodeCharset as it is, and stays unread. */
  lemma EmptyEncodingPassesContent(lib: Library, content: string, contentType: string)
    ensures DecodeContent(lib, content, "", contentType) ==
              Ok(Decoded(DecodeCharset(lib, content, contentType), content))
  {
  }
}
