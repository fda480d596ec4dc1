/**
  The multipart walker: parseMultipartMixed, parseMultipartAlternative and
  parseMultipartRelated, with the leaf helpers isAttachment,
  isEmbeddedFile, decodeAttachment and decodeEmbeddedFile
  (parser.go:130-186, 211-345, 431-477).

  Each walker reads the parts NextPart delivers for its body one after the
  other and folds them into its accumulators.  The spec functions fold a
  step function over the part stream; the methods are the loops.  The two
  nested walkers recurse into each other on a part's body, which is
  strictly shorter than the body it came from.
*/
module MultipartWalk {
  import opened GoStrings
  import opened Platform
  import opened EmailTypes
  import opened ContentType
  import opened TransferDecoding
  import opened HeaderDecoding

  const MultipartMixed: string := "multipart/mixed"
  const MultipartAlternative: string := "multipart/alternative"
  const MultipartRelated: string := "multipart/related"
  const TextHtml: string := "text/html"
  const TextPlain: string := "text/plain"
  const OctetStream: string := "application/octet-stream"

  const ContentTypeField: string := "Content-Type"
  const EncodingField: string := "Content-Transfer-Encoding"
  const ContentIdField: string := "Content-Id"

  /** What the walkers accumulate. */
  datatype Walk = Walk(textBody: string, htmlBody: string, attachments: seq<Attachment>, embeddedFiles: seq<EmbeddedFile>)

  const NoWalk: Walk := Walk("", "", [], [])

  /** What a walker returns: the accumulators as they stand, and the error that stopped it. */
  datatype Outcome = Outcome(walk: Walk, err: Option<Error>)

  /** One part handled: the walk goes on, or stops with an error. */
  datatype Step = Next(walk: Walk) | Stop(walk: Walk, error: Error)

  /** `w` extends `acc` the way the nested walkers do: text, HTML and embedded files only grow. */
  predicate Extends(acc: Walk, w: Walk) {
    && acc.textBody <= w.textBody
    && acc.htmlBody <= w.htmlBody
    && acc.embeddedFiles <= w.embeddedFiles
    && w.attachments == acc.attachments
  }

  // ---------------------------------------------------------------------
  // Leaves

  /** isEmbeddedFile. */
  predicate IsEmbeddedFile(part: Part) {
    Get(part.header, EncodingField) != ""
  }

  /** isAttachment. */
  predicate IsAttachment(lib: Library, part: Part, mediaType: string) {
    FileName(lib, part) != "" || mediaType == OctetStream
  }

  /** The media type of a part: its Content-Type header, sanitized, through mime.ParseMediaType, with no default. */
  function PartMediaType(lib: Library, part: Part): (r: Result<MediaType>)
    ensures r.Err? ==> r.error == InvalidContentType(Get(part.header, ContentTypeField))
    ensures r.Ok? <==> lib.parseMediaType(Sanitized(Get(part.header, ContentTypeField))).Some?
  {
    match lib.parseMediaType(Sanitized(Get(part.header, ContentTypeField)))
    case None => Err(InvalidContentType(Get(part.header, ContentTypeField)))
    case Some(mt) => Ok(mt)
  }

  /** The encodings for which decodeContent reads the part to the end before it returns. */
  predicate ReadsEagerly(encoding: string) {
    ToLower(encoding) in {"base64", "quoted-printable", "7bit", "8bit"}
  }

  /**
    decodeContent applied to the part itself: the decoder's own error, or,
    when it reads the part to the end, the part's read error; for the empty
    encoding nothing is read yet.
  */
  function DecodePart(lib: Library, part: Part): (r: Result<Decoded>)
    ensures DecodeContent(lib, part.body, Get(part.header, EncodingField), Get(part.header, ContentTypeField)).Err? ==> r.Err? && r.error == DecodeContent(lib, part.body, Get(part.header, EncodingField), Get(part.header, ContentTypeField)).error
    ensures DecodeContent(lib, part.body, Get(part.header, EncodingField), Get(part.header, ContentTypeField)).Ok? ==> (r.Err? <==> part.unreadable && ReadsEagerly(Get(part.header, EncodingField)))
    ensures DecodeContent(lib, part.body, Get(part.header, EncodingField), Get(part.header, ContentTypeField)).Ok? && r.Err? ==> r.error == UnreadablePart
    ensures r.Ok? ==> r == DecodeContent(lib, part.body, Get(part.header, EncodingField), Get(part.header, ContentTypeField))
  {
    match DecodeContent(lib, part.body, Get(part.header, EncodingField), Get(part.header, ContentTypeField))
    case Err(e) => Err(e)
    case Ok(d) => if part.unreadable && ReadsEagerly(Get(part.header, EncodingField)) then Err(UnreadablePart) else Ok(d)
  }

  /**
    A decoded text leaf, read to the end, with one trailing newline removed;
    the read fails when the part itself cannot be read.
  */
  function LeafText(lib: Library, part: Part): (r: Result<string>)
    ensures r.Err? <==> DecodeContent(lib, part.body, Get(part.header, EncodingField), Get(part.header, ContentTypeField)).Err? || part.unreadable
    ensures DecodeContent(lib, part.body, Get(part.header, EncodingField), Get(part.header, ContentTypeField)).Err? ==>
              r.Err? && r.error == DecodeContent(lib, part.body, Get(part.header, EncodingField), Get(part.header, ContentTypeField)).error
    ensures DecodeContent(lib, part.body, Get(part.header, EncodingField), Get(part.header, ContentTypeField)).Ok? && part.unreadable ==>
              r == Err(UnreadablePart)
  {
    match DecodePart(lib, part)
    case Err(e) => Err(e)
    case Ok(d) => if part.unreadable then Err(UnreadablePart) else Ok(TrimSuffix(d.data, "\n"))
  }

  /** decodeEmbeddedFile; it fails when decodeContent reads a part that cannot be read. */
  function EmbeddedFileOf(lib: Library, part: Part): (r: Result<EmbeddedFile>)
    ensures r.Ok? ==> r.value.contentType == Get(part.header, ContentTypeField)
    ensures r.Ok? ==> Trimmed(r.value.cid, "<>")
    ensures r.Err? <==> DecodeContent(lib, part.body, Get(part.header, EncodingField), Get(part.header, ContentTypeField)).Err? || (part.unreadable && ReadsEagerly(Get(part.header, EncodingField)))
    ensures DecodeContent(lib, part.body, Get(part.header, EncodingField), Get(part.header, ContentTypeField)).Err? ==> r.Err? && r.error == DecodeContent(lib, part.body, Get(part.header, EncodingField), Get(part.header, ContentTypeField)).error
    ensures DecodeContent(lib, part.body, Get(part.header, EncodingField), Get(part.header, ContentTypeField)).Ok? && r.Err? ==> r.error == UnreadablePart
  {
    var cid := MimeSentence(lib, Get(part.header, ContentIdField));
    match DecodePart(lib, part)
    case Err(e) => Err(e)
    case Ok(d) => Ok(EmbeddedFile(Trim(cid, "<>"), Get(part.header, ContentTypeField), d.data))
  }

  /**
    An attachment as decodeAttachment builds it, and whether its Data is
    still a reader over the part (no transfer encoding and not
    application/octet-stream), which the walker's next NextPart empties.
  */
  datatype DecodedAttachment = DecodedAttachment(attachment: Attachment, lazy: bool)

  /** The name "attachment-<id>" an attachment without a filename gets; `id` stands for time.Now().UnixNano(). */
  function FallbackName(id: int): (r: string)
    ensures r != ""
  {
    "attachment-" + FormatInt(id)
  }

  /** The media type decodeAttachment records: the raw Content-Type header up to its first ';'. */
  function AttachmentContentType(header: string): string {
    Split(header, ";")[0]
  }

  /**
    decodeAttachment; it fails when decodeContent, or the io.ReadAll of an
    application/octet-stream part, reads a part that cannot be read.
  */
  function AttachmentOf(lib: Library, part: Part, id: int): (r: Result<DecodedAttachment>)
    ensures r.Err? <==>
              || DecodeContent(lib, part.body, Get(part.header, EncodingField), Get(part.header, ContentTypeField)).Err?
              || (part.unreadable && ReadsEagerly(Get(part.header, EncodingField)))
              || (part.unreadable && AttachmentContentType(Get(part.header, ContentTypeField)) == OctetStream)
    ensures DecodeContent(lib, part.body, Get(part.header, EncodingField), Get(part.header, ContentTypeField)).Err? ==>
              r.Err? && r.error == DecodeContent(lib, part.body, Get(part.header, EncodingField), Get(part.header, ContentTypeField)).error
    ensures DecodeContent(lib, part.body, Get(part.header, EncodingField), Get(part.header, ContentTypeField)).Ok? && r.Err? ==>
              r.error == UnreadablePart
    ensures r.Ok? ==> r.value.attachment.filename != ""
  {
    var decodedName := MimeSentence(lib, FileName(lib, part));
    var filename := if decodedName == "" then FallbackName(id) else decodedName;
    var encoding := Get(part.header, EncodingField);
    match DecodePart(lib, part)
    case Err(e) => Err(e)
    case Ok(d) =>
      var contentType := AttachmentContentType(Get(part.header, ContentTypeField));
      if contentType == OctetStream then
        // io.ReadAll(part): what decodeContent left unread in the part
        if part.unreadable then Err(UnreadablePart) else
        Ok(DecodedAttachment(Attachment(filename, contentType, d.unread), false))
      else
        Ok(DecodedAttachment(Attachment(filename, contentType, d.data), ToLower(encoding) == ""))
  }

  /** The attachment as it can be read once the walker has called NextPart again. */
  function Drained(d: DecodedAttachment): (r: Attachment)
    ensures r.filename == d.attachment.filename && r.contentType == d.attachment.contentType
    ensures r.data == (if d.lazy then "" else d.attachment.data)
  {
    if d.lazy then d.attachment.(data := "") else d.attachment
  }

  /** The text, HTML and embedded files of a nested walk, appended to those of `acc`. */
  function Merged(acc: Walk, nested: Walk): (r: Walk)
    ensures Extends(acc, r)
  {
    acc.(textBody := acc.textBody + nested.textBody,
         htmlBody := acc.htmlBody + nested.htmlBody,
         embeddedFiles := acc.embeddedFiles + nested.embeddedFiles)
  }

  /** The text, HTML and embedded files of a nested walk, in place of those of `acc`. */
  function Replaced(acc: Walk, nested: Walk): (r: Walk)
    ensures r.attachments == acc.attachments
  {
    acc.(textBody := nested.textBody, htmlBody := nested.htmlBody, embeddedFiles := nested.embeddedFiles)
  }

  /** The end of a part stream: io.EOF, or the error NextPart returned. */
  function StreamEnd(st: PartStream): Option<Error> {
    if st.failed then Some(MalformedMultipart) else None
  }

  // ---------------------------------------------------------------------
  // parseMultipartRelated and parseMultipartAlternative

  /** One iteration of parseMultipartRelated. */
  function RelatedStep(lib: Library, body: string, part: Part, acc: Walk): (r: Step)
    requires lib.Valid() && |part.body| < |body|
    ensures Extends(acc, r.walk)
    decreases |body|, 0, 0
  {
    match PartMediaType(lib, part)
    case Err(e) => Stop(acc, e)
    case Ok(mt) =>
      if mt.mediaType == TextPlain then
        if part.unreadable then Stop(acc, UnreadablePart)
        else Next(acc.(textBody := acc.textBody + TrimSuffix(part.body, "\n")))
      else if mt.mediaType == TextHtml then
        if part.unreadable then Stop(acc, UnreadablePart)
        else Next(acc.(htmlBody := acc.htmlBody + TrimSuffix(part.body, "\n")))
      else if mt.mediaType == MultipartAlternative then
        var nested := Alternative(lib, part.body, Param(mt.params, "boundary"));
        if nested.err.Some? then Stop(acc, nested.err.value) else Next(Merged(acc, nested.walk))
      else if IsEmbeddedFile(part) then
        match EmbeddedFileOf(lib, part)
        case Err(e) => Stop(acc, e)
        case Ok(ef) => Next(acc.(embeddedFiles := acc.embeddedFiles + [ef]))
      else
        Stop(acc, UnsupportedPartType(MultipartRelated, mt.mediaType))
  }

  /** parseMultipartRelated from part `i` of the stream on. */
  function RelatedParts(lib: Library, body: string, st: PartStream, i: nat, acc: Walk): (r: Outcome)
    requires lib.Valid() && Shrinks(st, body) && i <= |st.parts|
    ensures Extends(acc, r.walk)
    decreases |body|, 0, |st.parts| - i + 1
  {
    if i == |st.parts| then Outcome(acc, StreamEnd(st))
    else match RelatedStep(lib, body, st.parts[i], acc)
      case Stop(w, e) => Outcome(w, Some(e))
      case Next(w) => RelatedParts(lib, body, st, i + 1, w)
  }

  /** parseMultipartRelated. */
  function Related(lib: Library, body: string, boundary: string): (r: Outcome)
    requires lib.Valid()
    ensures r.walk.attachments == []
    decreases |body|, 1, 0
  {
    RelatedParts(lib, body, lib.nextParts(body, boundary), 0, NoWalk)
  }

  /** One iteration of parseMultipartAlternative. */
  function AlternativeStep(lib: Library, body: string, part: Part, acc: Walk): (r: Step)
    requires lib.Valid() && |part.body| < |body|
    ensures Extends(acc, r.walk)
    decreases |body|, 0, 0
  {
    match PartMediaType(lib, part)
    case Err(e) => Stop(acc, e)
    case Ok(mt) =>
      if mt.mediaType == TextPlain then
        match LeafText(lib, part)
        case Err(e) => Stop(acc, e)
        case Ok(t) => Next(acc.(textBody := acc.textBody + t))
      else if mt.mediaType == TextHtml then
        match LeafText(lib, part)
        case Err(e) => Stop(acc, e)
        case Ok(t) => Next(acc.(htmlBody := acc.htmlBody + t))
      else if mt.mediaType == MultipartRelated then
        var nested := Related(lib, part.body, Param(mt.params, "boundary"));
        if nested.err.Some? then Stop(acc, nested.err.value) else Next(Merged(acc, nested.walk))
      else if IsEmbeddedFile(part) then
        match EmbeddedFileOf(lib, part)
        case Err(e) => Stop(acc, e)
        case Ok(ef) => Next(acc.(embeddedFiles := acc.embeddedFiles + [ef]))
      else
        Stop(acc, UnsupportedPartType(MultipartAlternative, mt.mediaType))
  }

  /** parseMultipartAlternative from part `i` of the stream on. */
  function AlternativeParts(lib: Library, body: string, st: PartStream, i: nat, acc: Walk): (r: Outcome)
    requires lib.Valid() && Shrinks(st, body) && i <= |st.parts|
    ensures Extends(acc, r.walk)
    decreases |body|, 0, |st.parts| - i + 1
  {
    if i == |st.parts| then Outcome(acc, StreamEnd(st))
    else match AlternativeStep(lib, body, st.parts[i], acc)
      case Stop(w, e) => Outcome(w, Some(e))
      case Next(w) => AlternativeParts(lib, body, st, i + 1, w)
  }

  /** parseMultipartAlternative. */
  function Alternative(lib: Library, body: string, boundary: string): (r: Outcome)
    requires lib.Valid()
    ensures r.walk.attachments == []
    decreases |body|, 1, 0
  {
    AlternativeParts(lib, body, lib.nextParts(body, boundary), 0, NoWalk)
  }

  // ---------------------------------------------------------------------
  // parseMultipartMixed

  /**
    One iteration of parseMultipartMixed; `now` stands for the clock that
    names attachments without a filename, read once per attachment.
  */
  function MixedStep(lib: Library, body: string, part: Part, acc: Walk, now: nat -> int): (r: Step)
    requires lib.Valid() && |part.body| < |body|
    ensures acc.attachments <= r.walk.attachments
  {
    match PartMediaType(lib, part)
    case Err(e) => Stop(acc, e)
    case Ok(mt) =>
      if mt.mediaType == MultipartAlternative then
        var nested := Alternative(lib, part.body, Param(mt.params, "boundary"));
        var w := Replaced(acc, nested.walk);
        if nested.err.Some? then Stop(w, nested.err.value) else Next(w)
      else if mt.mediaType == MultipartRelated then
        var nested := Related(lib, part.body, Param(mt.params, "boundary"));
        var w := Replaced(acc, nested.walk);
        if nested.err.Some? then Stop(w, nested.err.value) else Next(w)
      else if mt.mediaType == TextPlain then
        match LeafText(lib, part)
        case Err(e) => Stop(acc, e)
        case Ok(t) => Next(acc.(textBody := acc.textBody + t))
      else if mt.mediaType == TextHtml then
        match LeafText(lib, part)
        case Err(e) => Stop(acc, e)
        case Ok(t) => Next(acc.(htmlBody := acc.htmlBody + t))
      else if IsAttachment(lib, part, mt.mediaType) then
        match AttachmentOf(lib, part, now(|acc.attachments|))
        case Err(e) => Stop(acc, e)
        case Ok(d) => Next(acc.(attachments := acc.attachments + [Drained(d)]))
      else
        Stop(acc, UnsupportedPartType(MultipartMixed, mt.mediaType))
  }

  /** parseMultipartMixed from part `i` of the stream on. */
  function MixedParts(lib: Library, body: string, st: PartStream, i: nat, acc: Walk, now: nat -> int): (r: Outcome)
    requires lib.Valid() && Shrinks(st, body) && i <= |st.parts|
    ensures acc.attachments <= r.walk.attachments
    decreases |st.parts| - i
  {
    if i == |st.parts| then Outcome(acc, StreamEnd(st))
    else match MixedStep(lib, body, st.parts[i], acc, now)
      case Stop(w, e) => Outcome(w, Some(e))
      case Next(w) => MixedParts(lib, body, st, i + 1, w, now)
  }

  /** parseMultipartMixed. */
  function Mixed(lib: Library, body: string, boundary: string, now: nat -> int): Outcome
    requires lib.Valid()
  {
    MixedParts(lib, body, lib.nextParts(body, boundary), 0, NoWalk, now)
  }

  // ---------------------------------------------------------------------
  // The loops

  /** decodeEmbeddedFile; on error the file is the zero value. */
  method DecodeEmbeddedFile(lib: Library, part: Part) returns (ef: EmbeddedFile, err: Option<Error>)
    ensures err.Some? ==> EmbeddedFileOf(lib, part) == Err(err.value) && ef == EmbeddedFile("", "", "")
    ensures err.None? ==> EmbeddedFileOf(lib, part) == Ok(ef)
  {
    var cid := DecodeMimeSentence(lib, Get(part.header, ContentIdField));
    ef := EmbeddedFile("", "", "");
    var decoded := DecodePart(lib, part);
    if decoded.Err? {
      return ef, Some(decoded.error);
    }
    ef := ef.(cid := Trim(cid, "<>"));
    ef := ef.(data := decoded.value.data);
    ef := ef.(contentType := Get(part.header, ContentTypeField));
    err := None;
  }

  /**
    decodeAttachment; when decodeContent fails the attachment is the zero
    value, and when the io.ReadAll of an application/octet-stream part
    fails it is the one built so far.
  */
  method DecodeAttachment(lib: Library, part: Part, id: int) returns (at: DecodedAttachment, err: Option<Error>)
    ensures err.Some? ==> AttachmentOf(lib, part, id) == Err(err.value)
    ensures err.Some? && DecodePart(lib, part).Err? ==> at.attachment == Attachment("", "", "")
    ensures err.Some? && DecodePart(lib, part).Ok? ==>
              err.value == UnreadablePart && at.attachment.filename != "" && at.attachment.contentType == OctetStream
    ensures err.None? ==> AttachmentOf(lib, part, id) == Ok(at)
  {
    var filename := DecodeMimeSentence(lib, FileName(lib, part));
    if filename == "" {
      filename := FallbackName(id);
    }
    at := DecodedAttachment(Attachment("", "", ""), false);
    var encoding := Get(part.header, EncodingField);
    var decoded := DecodePart(lib, part);
    if decoded.Err? {
      return at, Some(decoded.error);
    }
    var contentType := Split(Get(part.header, ContentTypeField), ";")[0];
    at := DecodedAttachment(Attachment(filename, contentType, decoded.value.data), ToLower(encoding) == "");
    if contentType == OctetStream {
      if part.unreadable {
        return at, Some(UnreadablePart);
      }
      var data := decoded.value.unread;  // io.ReadAll(part)
      at := DecodedAttachment(at.attachment.(data := data), false);
    }
    err := None;
  }

  /** The body of parseMultipartRelated's loop, for one part. */
  method RelatedIteration(lib: Library, body: string, part: Part, acc: Walk) returns (step: Step)
    requires lib.Valid() && |part.body| < |body|
    ensures step == RelatedStep(lib, body, part, acc)
    decreases |body|, 0
  {
    var contentType := SanitizeContentTypeHeader(Get(part.header, ContentTypeField));
    var parsed := lib.parseMediaType(contentType);
    if parsed.None? {
      return Stop(acc, InvalidContentType(Get(part.header, ContentTypeField)));
    }
    var mediaType := parsed.value.mediaType;
    if (mediaType == TextPlain || mediaType == TextHtml) && part.unreadable {
      step := Stop(acc, UnreadablePart);
    } else if mediaType == TextPlain {
      step := Next(acc.(textBody := acc.textBody + TrimSuffix(part.body, "\n")));
    } else if mediaType == TextHtml {
      step := Next(acc.(htmlBody := acc.htmlBody + TrimSuffix(part.body, "\n")));
    } else if mediaType == MultipartAlternative {
      var tb, hb, ef, err := ParseMultipartAlternative(lib, part.body, Param(parsed.value.params, "boundary"));
      if err.Some? {
        return Stop(acc, err.value);
      }
      step := Next(acc.(htmlBody := acc.htmlBody + hb, textBody := acc.textBody + tb,
                        embeddedFiles := acc.embeddedFiles + ef));
    } else if IsEmbeddedFile(part) {
      var ef, err := DecodeEmbeddedFile(lib, part);
      if err.Some? {
        return Stop(acc, err.value);
      }
      step := Next(acc.(embeddedFiles := acc.embeddedFiles + [ef]));
    } else {
      step := Stop(acc, UnsupportedPartType(MultipartRelated, mediaType));
    }
  }

  /** parseMultipartRelated. */
  method ParseMultipartRelated(lib: Library, body: string, boundary: string)
    returns (textBody: string, htmlBody: string, embeddedFiles: seq<EmbeddedFile>, err: Option<Error>)
    requires lib.Valid()
    ensures Outcome(Walk(textBody, htmlBody, [], embeddedFiles), err) == Related(lib, body, boundary)
    decreases |body|, 1
  {
    var st := lib.nextParts(body, boundary);
    var acc := NoWalk;
    var i := 0;
    err := None;
    while i < |st.parts| && err == None
      invariant i <= |st.parts| && acc.attachments == []
      invariant if err == None then RelatedParts(lib, body, st, i, acc) == Related(lib, body, boundary)
                else Outcome(acc, err) == Related(lib, body, boundary)
      decreases |st.parts| - i, if err == None then 1 else 0
    {
      var step := RelatedIteration(lib, body, st.parts[i], acc);
      acc := step.walk;
      if step.Stop? {
        err := Some(step.error);
      } else {
        i := i + 1;
      }
    }
    if err == None {
      err := StreamEnd(st);
    }
    textBody, htmlBody, embeddedFiles := acc.textBody, acc.htmlBody, acc.embeddedFiles;
  }

  /** The body of parseMultipartAlternative's loop, for one part. */
  method AlternativeIteration(lib: Library, body: string, part: Part, acc: Walk) returns (step: Step)
    requires lib.Valid() && |part.body| < |body|
    ensures step == AlternativeStep(lib, body, part, acc)
    decreases |body|, 0
  {
    var contentType := SanitizeContentTypeHeader(Get(part.header, ContentTypeField));
    var parsed := lib.parseMediaType(contentType);
    if parsed.None? {
      return Stop(acc, InvalidContentType(Get(part.header, ContentTypeField)));
    }
    var mediaType := parsed.value.mediaType;
    if mediaType == TextPlain || mediaType == TextHtml {
      var decoded := DecodePart(lib, part);
      if decoded.Err? {
        return Stop(acc, decoded.error);
      }
      if part.unreadable {  // io.ReadAll(newPart)
        return Stop(acc, UnreadablePart);
      }
      var content := TrimSuffix(decoded.value.data, "\n");
      if mediaType == TextPlain {
        step := Next(acc.(textBody := acc.textBody + content));
      } else {
        step := Next(acc.(htmlBody := acc.htmlBody + content));
      }
    } else if mediaType == MultipartRelated {
      var tb, hb, ef, err := ParseMultipartRelated(lib, part.body, Param(parsed.value.params, "boundary"));
      if err.Some? {
        return Stop(acc, err.value);
      }
      step := Next(acc.(htmlBody := acc.htmlBody + hb, textBody := acc.textBody + tb,
                        embeddedFiles := acc.embeddedFiles + ef));
    } else if IsEmbeddedFile(part) {
      var ef, err := DecodeEmbeddedFile(lib, part);
      if err.Some? {
        return Stop(acc, err.value);
      }
      step := Next(acc.(embeddedFiles := acc.embeddedFiles + [ef]));
    } else {
      step := Stop(acc, UnsupportedPartType(MultipartAlternative, mediaType));
    }
  }

  /** parseMultipartAlternative. */
  method ParseMultipartAlternative(lib: Library, body: string, boundary: string)
    returns (textBody: string, htmlBody: string, embeddedFiles: seq<EmbeddedFile>, err: Option<Error>)
    requires lib.Valid()
    ensures Outcome(Walk(textBody, htmlBody, [], embeddedFiles), err) == Alternative(lib, body, boundary)
    decreases |body|, 1
  {
    var st := lib.nextParts(body, boundary);
    var acc := NoWalk;
    var i := 0;
    err := None;
    while i < |st.parts| && err == None
      invariant i <= |st.parts| && acc.attachments == []
      invariant if err == None then AlternativeParts(lib, body, st, i, acc) == Alternative(lib, body, boundary)
                else Outcome(acc, err) == Alternative(lib, body, boundary)
      decreases |st.parts| - i, if err == None then 1 else 0
    {
      var step := AlternativeIteration(lib, body, st.parts[i], acc);
      acc := step.walk;
      if step.Stop? {
        err := Some(step.error);
      } else {
        i := i + 1;
      }
    }
    if err == None {
      err := StreamEnd(st);
    }
    textBody, htmlBody, embeddedFiles := acc.textBody, acc.htmlBody, acc.embeddedFiles;
  }

  /** The body of parseMultipartMixed's loop, for one part. */
  method MixedIteration(lib: Library, body: string, part: Part, acc: Walk, now: nat -> int) returns (step: Step)
    requires lib.Valid() && |part.body| < |body|
    ensures step == MixedStep(lib, body, part, acc, now)
  {
    var contentType := SanitizeContentTypeHeader(Get(part.header, ContentTypeField));
    var parsed := lib.parseMediaType(contentType);
    if parsed.None? {
      return Stop(acc, InvalidContentType(Get(part.header, ContentTypeField)));
    }
    var mediaType := parsed.value.mediaType;
    if mediaType == MultipartAlternative || mediaType == MultipartRelated {
      var tb, hb, ef, err;
      if mediaType == MultipartAlternative {
        tb, hb, ef, err := ParseMultipartAlternative(lib, part.body, Param(parsed.value.params, "boundary"));
      } else {
        tb, hb, ef, err := ParseMultipartRelated(lib, part.body, Param(parsed.value.params, "boundary"));
      }
      var w := acc.(textBody := tb, htmlBody := hb, embeddedFiles := ef);
      step := if err.Some? then Stop(w, err.value) else Next(w);
    } else if mediaType == TextPlain || mediaType == TextHtml {
      var decoded := DecodePart(lib, part);
      if decoded.Err? {
        return Stop(acc, decoded.error);
      }
      if part.unreadable {  // io.ReadAll(newPart)
        return Stop(acc, UnreadablePart);
      }
      var content := TrimSuffix(decoded.value.data, "\n");
      if mediaType == TextPlain {
        step := Next(acc.(textBody := acc.textBody + content));
      } else {
        step := Next(acc.(htmlBody := acc.htmlBody + content));
      }
    } else if IsAttachment(lib, part, mediaType) {
      var at, err := DecodeAttachment(lib, part, now(|acc.attachments|));
      if err.Some? {
        return Stop(acc, err.value);
      }
      // the next NextPart closes this part, which empties a reader still open over it
      var kept := if at.lazy then at.attachment.(data := "") else at.attachment;
      step := Next(acc.(attachments := acc.attachments + [kept]));
    } else {
      step := Stop(acc, UnsupportedPartType(MultipartMixed, mediaType));
    }
  }

  /** parseMultipartMixed. */
  method ParseMultipartMixed(lib: Library, body: string, boundary: string, now: nat -> int)
    returns (textBody: string, htmlBody: string, attachments: seq<Attachment>, embeddedFiles: seq<EmbeddedFile>, err: Option<Error>)
    requires lib.Valid()
    ensures Outcome(Walk(textBody, htmlBody, attachments, embeddedFiles), err) == Mixed(lib, body, boundary, now)
  {
    var st := lib.nextParts(body, boundary);
    var acc := NoWalk;
    var i := 0;
    err := None;
    while i < |st.parts| && err == None
      invariant i <= |st.parts|
      invariant if err == None then MixedParts(lib, body, st, i, acc, now) == Mixed(lib, body, boundary, now)
                else Outcome(acc, err) == Mixed(lib, body, boundary, now)
      decreases |st.parts| - i, if err == None then 1 else 0
    {
      var step := MixedIteration(lib, body, st.parts[i], acc, now);
      acc := step.walk;
      if step.Stop? {
        err := Some(step.error);
      } else {
        i := i + 1;
      }
    }
    if err == None {
      err := StreamEnd(st);
    }
    textBody, htmlBody, attachments, embeddedFiles := acc.textBody, acc.htmlBody, acc.attachments, acc.embeddedFiles;
  }
}
