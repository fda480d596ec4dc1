/**
  ParseEmail (parser.go:26-76): read the message, build the Email from its
  header, then dispatch on the top-level Content-Type, which defaults to
  text/plain when the field is absent.

  Go's ParseEmail returns the partly filled Email together with the error
  whenever the header could be read; only a message that mail.ReadMessage
  rejects gives no Email at all.
*/
module EmailParser {
  import opened GoStrings
  import opened Platform
  import opened EmailTypes
  import opened ContentType
  import opened TransferDecoding
  import opened HeaderParsing
  import opened MultipartWalk
  import opened WalkProperties

  /** What ParseEmail returns: the Email (None for a nil pointer) and the error. */
  datatype Parsed = Parsed(email: Option<Email>, err: Option<Error>)

  /** `e` is `email` with at most the body fields changed. */
  predicate SameHeader(e: Email, email: Email) {
    e == email.(content := e.content, htmlBody := e.htmlBody, textBody := e.textBody,
                attachments := e.attachments, embeddedFiles := e.embeddedFiles)
  }

  /** The Email with the outcome of a walk over its body; only multipart/mixed hands back attachments. */
  function WithWalk(email: Email, o: Outcome, withAttachments: bool): (r: Parsed)
    ensures r.email.Some? && SameHeader(r.email.value, email) && r.err == o.err
    ensures r.email.value.content == email.content
    ensures r.email.value.textBody == o.walk.textBody && r.email.value.htmlBody == o.walk.htmlBody
    ensures r.email.value.embeddedFiles == o.walk.embeddedFiles
    ensures r.email.value.attachments == if withAttachments then o.walk.attachments else email.attachments
  {
    var e := email.(textBody := o.walk.textBody, htmlBody := o.walk.htmlBody, embeddedFiles := o.walk.embeddedFiles);
    Parsed(Some(if withAttachments then e.(attachments := o.walk.attachments) else e), o.err)
  }

  /** The message body seen as a part, for decodeContent and the reads after it. */
  function BodyPart(msg: Message): (r: Part)
    ensures r.header == msg.header && r.body == msg.body && r.unreadable == msg.unreadable
  {
    Part(msg.header, msg.body, msg.unreadable)
  }

  /**
    A body that is not multipart, once decodeContent has run over it: the
    text or HTML body with one trailing newline removed, or else the
    Content reader.  A decoding error leaves the Email as it was.  When
    the body cannot be read, the text/plain branch keeps what was read and
    drops the error, while the text/html branch returns the error with
    HTMLBody unset.
  */
  function LeafBody(email: Email, decoded: Result<Decoded>, mediaType: string, unreadable: bool): (r: Parsed)
    ensures r.email.Some? && SameHeader(r.email.value, email)
    ensures r.err == if decoded.Err? then Some(decoded.error)
                     else if mediaType == TextHtml && unreadable then Some(UnreadablePart)
                     else None
    ensures r.email.value.attachments == email.attachments && r.email.value.embeddedFiles == email.embeddedFiles
    ensures decoded.Err? ==> r.email.value == email
    ensures decoded.Ok? && mediaType == TextPlain ==>
              r.email.value == email.(textBody := TrimSuffix(decoded.value.data, "\n"))
    ensures decoded.Ok? && mediaType == TextHtml ==>
              r.email.value == if unreadable then email else email.(htmlBody := TrimSuffix(decoded.value.data, "\n"))
    ensures decoded.Ok? && mediaType != TextPlain && mediaType != TextHtml ==>
              r.email.value == email.(content := Some(decoded.value.data))
  {
    match decoded
    case Err(e) => Parsed(Some(email), Some(e))
    case Ok(d) =>
      if mediaType == TextPlain then Parsed(Some(email.(textBody := TrimSuffix(d.data, "\n"))), None)
      else if mediaType == TextHtml then
        if unreadable then Parsed(Some(email), Some(UnreadablePart))
        else Parsed(Some(email.(htmlBody := TrimSuffix(d.data, "\n"))), None)
      else Parsed(Some(email.(content := Some(d.data))), None)
  }

  /** The walk over the body that ParseEmail's switch runs for a multipart media type. */
  function BodyWalk(lib: Library, body: string, mt: MediaType, now: nat -> int): Outcome
    requires lib.Valid()
  {
    var boundary := Param(mt.params, "boundary");
    if mt.mediaType == MultipartMixed then Mixed(lib, body, boundary, now)
    else if mt.mediaType == MultipartAlternative then Alternative(lib, body, boundary)
    else if mt.mediaType == MultipartRelated then Related(lib, body, boundary)
    else Outcome(NoWalk, None)
  }

  /**
    ParseEmail's switch on the media type: the walk's result for the three
    multiparts, decodeContent's for the rest.  Only multipart/mixed sets
    attachments and only a type outside the five sets Content.
  */
  function Assemble(email: Email, mediaType: string, walk: Outcome, decoded: Result<Decoded>, unreadable: bool): (r: Parsed)
    ensures r.email.Some? && SameHeader(r.email.value, email)
    ensures mediaType != MultipartMixed ==> r.email.value.attachments == email.attachments
    ensures mediaType in {MultipartMixed, MultipartAlternative, MultipartRelated, TextPlain, TextHtml} ==>
              r.email.value.content == email.content
  {
    if mediaType == MultipartMixed then WithWalk(email, walk, true)
    else if mediaType == MultipartAlternative || mediaType == MultipartRelated then WithWalk(email, walk, false)
    else LeafBody(email, decoded, mediaType, unreadable)
  }

  /** The body of a message with the given media type, put into `email`. */
  function BodyOf(lib: Library, msg: Message, email: Email, mt: MediaType, now: nat -> int): Parsed
    requires lib.Valid()
  {
    Assemble(email, mt.mediaType, BodyWalk(lib, msg.body, mt, now), DecodePart(lib, BodyPart(msg)), msg.unreadable)
  }

  /** ParseEmail; `now` stands for time.Now().UnixNano() at each attachment without a filename. */
  function ParsedEmail(lib: Library, raw: string, now: nat -> int): (r: Parsed)
    requires lib.Valid()
    ensures r.email.None? <==> lib.readMessage(raw).None?
    ensures r.email.None? ==> r.err == Some(MalformedMessage)
  {
    match lib.readMessage(raw)
    case None => Parsed(None, Some(MalformedMessage))
    case Some(msg) => ParsedMessage(lib, msg, HeaderEmail(lib, msg), now)
  }

  /** The Email before its body is read: createEmailFromHeader's, with the raw Content-Type. */
  function HeaderEmail(lib: Library, msg: Message): (r: Email)
    ensures r.contentType == Get(msg.header, ContentTypeField)
  {
    EmailFromHeader(lib, msg.header).(contentType := Get(msg.header, ContentTypeField))
  }

  /**
    ParseEmail once the header has been turned into `email`: there is
    always an Email, also when an error comes back, and it keeps every
    field the header produced.
  */
  function ParsedMessage(lib: Library, msg: Message, email: Email, now: nat -> int): (r: Parsed)
    requires lib.Valid()
    ensures r.email.Some? && SameHeader(r.email.value, email)
  {
    match ParseContentType(lib, email.contentType)
    case Err(e) => Parsed(Some(email), Some(e))
    case Ok(mt) => BodyOf(lib, msg, email, mt, now)
  }

  /** ParseEmail. */
  method ParseEmail(lib: Library, raw: string, now: nat -> int) returns (email: Option<Email>, err: Option<Error>)
    requires lib.Valid()
    ensures Parsed(email, err) == ParsedEmail(lib, raw, now)
  {
    var msg := lib.readMessage(raw);
    if msg.None? {
      return None, Some(MalformedMessage);
    }
    var header := msg.value.header;
    var body := msg.value.body;
    var e, headerErr := CreateEmailFromHeader(lib, header);
    // createEmailFromHeader never reports an error, so ParseEmail goes on
    assert headerErr == None;
    e := e.(contentType := Get(header, ContentTypeField));
    var parsed := ParseContentType(lib, e.contentType);
    if parsed.Err? {
      return Some(e), Some(parsed.error);
    }
    var mediaType := parsed.value.mediaType;
    var boundary := Param(parsed.value.params, "boundary");
    if mediaType == MultipartMixed {
      var tb, hb, at, ef, walkErr := ParseMultipartMixed(lib, body, boundary, now);
      e := e.(textBody := tb, htmlBody := hb, attachments := at, embeddedFiles := ef);
      err := walkErr;
    } else if mediaType == MultipartAlternative {
      var tb, hb, ef, walkErr := ParseMultipartAlternative(lib, body, boundary);
      e := e.(textBody := tb, htmlBody := hb, embeddedFiles := ef);
      err := walkErr;
    } else if mediaType == MultipartRelated {
      var tb, hb, ef, walkErr := ParseMultipartRelated(lib, body, boundary);
      e := e.(textBody := tb, htmlBody := hb, embeddedFiles := ef);
      err := walkErr;
    } else {
      var decoded := DecodePart(lib, BodyPart(msg.value));
      if decoded.Err? {
        return Some(e), Some(decoded.error);
      }
      if mediaType == TextPlain {
        // message, _ := io.ReadAll(newPart): a read error is dropped
        e := e.(textBody := TrimSuffix(decoded.value.data, "\n"));
      } else if mediaType == TextHtml {
        if msg.value.unreadable {
          return Some(e), Some(UnreadablePart);
        }
        e := e.(htmlBody := TrimSuffix(decoded.value.data, "\n"));
      } else {
        e := e.(content := Some(decoded.value.data));
      }
      err := None;
    }
    email := Some(e);
  }

  // ---------------------------------------------------------------------
  // Properties

  /** An Email with no body fields set, as createEmailFromHeader leaves it. */
  predicate NoBody(e: Email) {
    e.content == None && e.htmlBody == "" && e.textBody == "" && e.attachments == [] && e.embeddedFiles == []
  }

  /** createEmailFromHeader leaves the body fields empty. */
  lemma HeaderEmailHasNoBody(lib: Library, msg: Message)
    ensures NoBody(HeaderEmail(lib, msg))
  {
  }

  /** A Content-Type the mime package rejects ends the parse before the body is read. */
  lemma BadContentTypeSkipsBody(lib: Library, msg: Message, email: Email, now: nat -> int)
    requires lib.Valid() && ParseContentType(lib, email.contentType).Err?
    ensures ParsedMessage(lib, msg, email, now) == Parsed(Some(email), Some(InvalidContentType(email.contentType)))
  {
  }

  /** Only a multipart/mixed body adds attachments. */
  lemma OnlyMixedHasAttachments(lib: Library, msg: Message, email: Email, now: nat -> int)
    requires lib.Valid() && NoBody(email)
    requires ParsedMessage(lib, msg, email, now).email.value.attachments != []
    ensures ParseContentType(lib, email.contentType).Ok?
    ensures ParseContentType(lib, email.contentType).value.mediaType == MultipartMixed
  {
  }

  /** Only a body that is neither text nor one of the three multiparts is kept as Content. */
  lemma ContentOnlyForOtherTypes(lib: Library, msg: Message, email: Email, now: nat -> int)
    requires lib.Valid() && NoBody(email)
    requires ParsedMessage(lib, msg, email, now).email.value.content.Some?
    ensures ParseContentType(lib, email.contentType).Ok?
    ensures ParseContentType(lib, email.contentType).value.mediaType
              !in {MultipartMixed, MultipartAlternative, MultipartRelated, TextPlain, TextHtml}
  {
  }

  /** A text/plain message sets its text body and nothing else. */
  lemma TextMessageSetsOnlyTextBody(lib: Library, msg: Message, email: Email, mt: MediaType, now: nat -> int)
    requires lib.Valid() && mt.mediaType == TextPlain
    ensures var r := BodyOf(lib, msg, email, mt, now);
            r.email.Some? && r.email.value == email.(textBody := r.email.value.textBody)
  {
  }

  /** A text/html message sets its HTML body and nothing else. */
  lemma HtmlMessageSetsOnlyHtmlBody(lib: Library, msg: Message, email: Email, mt: MediaType, now: nat -> int)
    requires lib.Valid() && mt.mediaType == TextHtml
    ensures var r := BodyOf(lib, msg, email, mt, now);
            r.email.Some? && r.email.value == email.(htmlBody := r.email.value.htmlBody)
  {
  }

  /**
    A text/html message whose body cannot be read returns the Email
    without an HTML body and with an error: decodeContent's own error, or
    else the read error.
  */
  lemma UnreadableHtmlBodyFails(lib: Library, msg: Message, email: Email, mt: MediaType, now: nat -> int)
    requires lib.Valid() && mt.mediaType == TextHtml && msg.unreadable
    ensures BodyOf(lib, msg, email, mt, now).email == Some(email)
    ensures BodyOf(lib, msg, email, mt, now).err.Some?
    ensures DecodeContent(lib, msg.body, Get(msg.header, EncodingField), Get(msg.header, ContentTypeField)).Ok? ==>
              BodyOf(lib, msg, email, mt, now).err == Some(UnreadablePart)
  {
  }

  /**
    A text/plain message without a transfer encoding whose body cannot be
    read keeps what was read, charset-decoded and minus one trailing
    newline, and reports no error.
  */
  lemma UnreadableTextBodyKeepsWhatWasRead(lib: Library, msg: Message, email: Email, mt: MediaType, now: nat -> int)
    requires lib.Valid() && mt.mediaType == TextPlain && msg.unreadable
    requires Get(msg.header, EncodingField) == ""
    ensures BodyOf(lib, msg, email, mt, now)
         == Parsed(Some(email.(textBody := TrimSuffix(DecodeCharset(lib, msg.body, Get(msg.header, ContentTypeField)), "\n"))), None)
  {
    PassThroughPartDecoding(lib, BodyPart(msg));
    var d := Decoded(DecodeCharset(lib, msg.body, Get(msg.header, ContentTypeField)), msg.body);
    assert DecodePart(lib, BodyPart(msg)) == Ok(d);
    assert BodyOf(lib, msg, email, mt, now) == LeafBody(email, Ok(d), TextPlain, true);
  }

  /**
    A message without Content-Type is read as text/plain; with no transfer
    encoding (or 7bit or 8bit) and so no charset, its text body is the
    body with one trailing newline removed.  A read error of the body is
    dropped for the empty encoding, which keeps what was read, and
    returned for 7bit and 8bit, which decodeContent reads to the end.
  */
  lemma MessageWithoutContentTypeIsText(lib: Library, msg: Message, email: Email, now: nat -> int)
    requires lib.Valid() && email.contentType == "" && Get(msg.header, ContentTypeField) == ""
    requires ToLower(Get(msg.header, EncodingField)) in {"", "7bit", "8bit"}
    ensures ParsedMessage(lib, msg, email, now)
         == if msg.unreadable && ToLower(Get(msg.header, EncodingField)) != "" then Parsed(Some(email), Some(UnreadablePart))
            else Parsed(Some(email.(textBody := TrimSuffix(msg.body, "\n"))), None)
  {
    assert !Contains("", CharsetMarker);
    assert DecodeCharset(lib, msg.body, "") == msg.body;
    var mt := ParseContentType(lib, email.contentType).value;
    assert mt.mediaType == TextPlain;
    PassThroughPartDecoding(lib, BodyPart(msg));
    var decoded := DecodePart(lib, BodyPart(msg));
    assert ParsedMessage(lib, msg, email, now) == LeafBody(email, decoded, TextPlain, msg.unreadable);
  }
}
