/**
  What the three multipart walkers promise, and where they differ: how a
  leaf is classified, what a nested walk does to the accumulators, how
  text leaves are read, and how attachments and embedded files are built.
*/
module WalkProperties {
  import opened GoStrings
  import opened Platform
  import opened EmailTypes
  import opened ContentType
  import opened TransferDecoding
  import opened HeaderDecoding
  import opened MultipartWalk

  // ---------------------------------------------------------------------
  // A part without Content-Type

  /**
    Unlike the top-level message, a part without a Content-Type field gets
    no text/plain default: every walker stops at it with the
    media-type error.
  */
  lemma MissingContentTypeAborts(lib: Library, body: string, part: Part, acc: Walk, now: nat -> int)
    requires lib.Valid() && |part.body| < |body|
    requires Get(part.header, ContentTypeField) == ""
    ensures RelatedStep(lib, body, part, acc) == Stop(acc, InvalidContentType(""))
    ensures AlternativeStep(lib, body, part, acc) == Stop(acc, InvalidContentType(""))
    ensures MixedStep(lib, body, part, acc, now) == Stop(acc, InvalidContentType(""))
  {
    SanitizeEmpty();
    assert PartMediaType(lib, part) == Err(InvalidContentType(""));
  }

  // ---------------------------------------------------------------------
  // Text leaves: raw in multipart/related, decoded elsewhere

  predicate IsTextPlain(lib: Library, part: Part) {
    PartMediaType(lib, part).Ok? && PartMediaType(lib, part).value.mediaType == TextPlain
  }

  /**
    The text/plain bodies of `parts` as they stand, one trailing newline
    removed from each, up to the first part that cannot be read.
  */
  function RawTexts(parts: seq<Part>): (r: string)
    ensures parts == [] ==> r == ""
  {
    if parts == [] || parts[0].unreadable then "" else TrimSuffix(parts[0].body, "\n") + RawTexts(parts[1..])
  }

  /** How reading `parts` one after the other ends: at the first part that cannot be read, or with `end`. */
  function ReadEnd(parts: seq<Part>, end: Option<Error>): Option<Error> {
    if parts == [] then end
    else if parts[0].unreadable then Some(UnreadablePart)
    else ReadEnd(parts[1..], end)
  }

  /** The reads end with `end` exactly when every part can be read, and otherwise with the read error. */
  lemma {:induction false} ReadEndIsFirstFailure(parts: seq<Part>, end: Option<Error>)
    ensures (forall j :: 0 <= j < |parts| ==> !parts[j].unreadable) ==> ReadEnd(parts, end) == end
    ensures (exists j :: 0 <= j < |parts| && parts[j].unreadable) ==> ReadEnd(parts, end) == Some(UnreadablePart)
  {
    if parts != [] && !parts[0].unreadable {
      ReadEndIsFirstFailure(parts[1..], end);
      assert forall j :: 1 <= j < |parts| ==> parts[1..][j - 1] == parts[j];
    }
  }

  /**
    The text/plain bodies of `parts` through decodeContent, one trailing
    newline removed from each (a part that does not decode adds nothing).
  */
  function DecodedTexts(lib: Library, parts: seq<Part>): (r: string)
    ensures parts == [] ==> r == ""
  {
    if parts == [] then ""
    else (match LeafText(lib, parts[0]) case Ok(t) => t case Err(_) => "") + DecodedTexts(lib, parts[1..])
  }

  /**
    multipart/related appends a text/plain part as it stands, and goes on
    with the next part; a part that cannot be read ends the walk.
  */
  lemma RelatedTextStep(lib: Library, body: string, st: PartStream, i: nat, acc: Walk)
    requires lib.Valid() && Shrinks(st, body) && i < |st.parts| && IsTextPlain(lib, st.parts[i])
    ensures !st.parts[i].unreadable ==>
              (RelatedParts(lib, body, st, i, acc)
               == RelatedParts(lib, body, st, i + 1, acc.(textBody := acc.textBody + TrimSuffix(st.parts[i].body, "\n"))))
    ensures st.parts[i].unreadable ==> RelatedParts(lib, body, st, i, acc) == Outcome(acc, Some(UnreadablePart))
  {
  }

  /** multipart/alternative appends a decoded text/plain part, and goes on with the next part. */
  lemma AlternativeTextStep(lib: Library, body: string, st: PartStream, i: nat, acc: Walk)
    requires lib.Valid() && Shrinks(st, body) && i < |st.parts|
    requires IsTextPlain(lib, st.parts[i]) && LeafText(lib, st.parts[i]).Ok?
    ensures AlternativeParts(lib, body, st, i, acc)
         == AlternativeParts(lib, body, st, i + 1, acc.(textBody := acc.textBody + LeafText(lib, st.parts[i]).value))
  {
  }

  /** multipart/mixed appends a decoded text/plain part, and goes on with the next part. */
  lemma MixedTextStep(lib: Library, body: string, st: PartStream, i: nat, acc: Walk, now: nat -> int)
    requires lib.Valid() && Shrinks(st, body) && i < |st.parts|
    requires IsTextPlain(lib, st.parts[i]) && LeafText(lib, st.parts[i]).Ok?
    ensures MixedParts(lib, body, st, i, acc, now)
         == MixedParts(lib, body, st, i + 1, acc.(textBody := acc.textBody + LeafText(lib, st.parts[i]).value), now)
  {
  }

  predicate IsTextHtml(lib: Library, part: Part) {
    PartMediaType(lib, part).Ok? && PartMediaType(lib, part).value.mediaType == TextHtml
  }

  /** multipart/related appends a text/html part as it stands to the HTML body; a part that cannot be read ends the walk. */
  lemma RelatedHtmlStep(lib: Library, body: string, st: PartStream, i: nat, acc: Walk)
    requires lib.Valid() && Shrinks(st, body) && i < |st.parts| && IsTextHtml(lib, st.parts[i])
    ensures !st.parts[i].unreadable ==>
              (RelatedParts(lib, body, st, i, acc)
               == RelatedParts(lib, body, st, i + 1, acc.(htmlBody := acc.htmlBody + TrimSuffix(st.parts[i].body, "\n"))))
    ensures st.parts[i].unreadable ==> RelatedParts(lib, body, st, i, acc) == Outcome(acc, Some(UnreadablePart))
  {
  }

  /** multipart/alternative appends a decoded text/html part to the HTML body. */
  lemma AlternativeHtmlStep(lib: Library, body: string, st: PartStream, i: nat, acc: Walk)
    requires lib.Valid() && Shrinks(st, body) && i < |st.parts|
    requires IsTextHtml(lib, st.parts[i]) && LeafText(lib, st.parts[i]).Ok?
    ensures AlternativeParts(lib, body, st, i, acc)
         == AlternativeParts(lib, body, st, i + 1, acc.(htmlBody := acc.htmlBody + LeafText(lib, st.parts[i]).value))
  {
  }

  /** multipart/mixed appends a decoded text/html part to the HTML body. */
  lemma MixedHtmlStep(lib: Library, body: string, st: PartStream, i: nat, acc: Walk, now: nat -> int)
    requires lib.Valid() && Shrinks(st, body) && i < |st.parts|
    requires IsTextHtml(lib, st.parts[i]) && LeafText(lib, st.parts[i]).Ok?
    ensures MixedParts(lib, body, st, i, acc, now)
         == MixedParts(lib, body, st, i + 1, acc.(htmlBody := acc.htmlBody + LeafText(lib, st.parts[i]).value), now)
  {
  }

  /** Every part NextPart delivers is as NextPart leaves it. */
  lemma DeliveredPart(lib: Library, body: string, boundary: string, i: nat)
    requires lib.Valid() && i < |lib.nextParts(body, boundary).parts|
    ensures AsDelivered(lib.nextParts(body, boundary).parts[i])
  {
    assert Delivered(lib.nextParts(body, boundary));
  }

  /**
    decodeContent over a part that cannot be read succeeds exactly for the
    empty encoding, which reads nothing yet and hands the part on.
  */
  lemma UnreadablePartDecoding(lib: Library, part: Part)
    requires part.unreadable
    ensures DecodePart(lib, part).Ok? <==> Get(part.header, EncodingField) == ""
    ensures Get(part.header, EncodingField) == "" ==>
              DecodePart(lib, part) == Ok(Decoded(DecodeCharset(lib, part.body, Get(part.header, ContentTypeField)), part.body))
  {
    var encoding := Get(part.header, EncodingField);
    if encoding == "" {
      EmptyEncodingPassesContent(lib, part.body, Get(part.header, ContentTypeField));
    } else if DecodeContent(lib, part.body, Get(part.header, EncodingField), Get(part.header, ContentTypeField)).Ok? {
      assert KnownEncoding(ToLower(encoding)) && ToLower(encoding) != "";
    }
  }

  /**
    decodeContent over a part with no transfer encoding, 7bit or 8bit
    applies only the charset; it fails exactly when it reads the part to
    the end (7bit and 8bit) and the part cannot be read.
  */
  lemma PassThroughPartDecoding(lib: Library, part: Part)
    requires ToLower(Get(part.header, EncodingField)) in {"", "7bit", "8bit"}
    ensures DecodePart(lib, part).Err? <==> part.unreadable && ToLower(Get(part.header, EncodingField)) != ""
    ensures DecodePart(lib, part).Err? ==> DecodePart(lib, part).error == UnreadablePart
    ensures DecodePart(lib, part).Ok? ==>
              DecodePart(lib, part).value
                == Decoded(DecodeCharset(lib, part.body, Get(part.header, ContentTypeField)),
                           if ToLower(Get(part.header, EncodingField)) == "" then part.body else "")
  {
    var encoding := Get(part.header, EncodingField);
    assert DecodeContent(lib, part.body, encoding, Get(part.header, ContentTypeField)).Ok?;
    assert ReadsEagerly(encoding) <==> ToLower(encoding) != "";
  }

  /**
    A text/plain or text/html part that cannot be read stops every walker,
    keeping what was gathered before it: multipart/related with the read
    error, the others with the error of the decoded read (decodeContent's
    own error, or else the read error, as `LeafText` states).
  */
  lemma UnreadableTextStopsWalk(lib: Library, body: string, part: Part, acc: Walk, now: nat -> int)
    requires lib.Valid() && |part.body| < |body| && part.unreadable
    requires IsTextPlain(lib, part) || IsTextHtml(lib, part)
    ensures RelatedStep(lib, body, part, acc) == Stop(acc, UnreadablePart)
    ensures LeafText(lib, part).Err?
    ensures AlternativeStep(lib, body, part, acc) == Stop(acc, LeafText(lib, part).error)
    ensures MixedStep(lib, body, part, acc, now) == Stop(acc, LeafText(lib, part).error)
  {
    assert LeafText(lib, part).Err?;
  }

  /**
    An embedded file of multipart/related that cannot be read stops the
    walk: its transfer encoding is not empty, so decodeContent either
    rejects it or reads the part and fails.  A nested multipart/related
    part with an encoding is such a file too.
  */
  lemma UnreadableEmbeddedFileStopsRelated(lib: Library, body: string, part: Part, acc: Walk, mt: MediaType)
    requires lib.Valid() && |part.body| < |body| && part.unreadable
    requires PartMediaType(lib, part) == Ok(mt)
    requires mt.mediaType !in {TextPlain, TextHtml, MultipartAlternative}
    requires IsEmbeddedFile(part)
    ensures RelatedStep(lib, body, part, acc).Stop? && RelatedStep(lib, body, part, acc).walk == acc
    ensures DecodeContent(lib, part.body, Get(part.header, EncodingField), Get(part.header, ContentTypeField)).Ok? ==>
              RelatedStep(lib, body, part, acc).error == UnreadablePart
  {
    UnreadablePartDecoding(lib, part);
    assert EmbeddedFileOf(lib, part).Err?;
  }

  /**
    The same for multipart/alternative, where a nested
    multipart/alternative part with an encoding is an embedded file.
  */
  lemma UnreadableEmbeddedFileStopsAlternative(lib: Library, body: string, part: Part, acc: Walk, mt: MediaType)
    requires lib.Valid() && |part.body| < |body| && part.unreadable
    requires PartMediaType(lib, part) == Ok(mt)
    requires mt.mediaType !in {TextPlain, TextHtml, MultipartRelated}
    requires IsEmbeddedFile(part)
    ensures AlternativeStep(lib, body, part, acc).Stop? && AlternativeStep(lib, body, part, acc).walk == acc
    ensures DecodeContent(lib, part.body, Get(part.header, EncodingField), Get(part.header, ContentTypeField)).Ok? ==>
              AlternativeStep(lib, body, part, acc).error == UnreadablePart
  {
    UnreadablePartDecoding(lib, part);
    assert EmbeddedFileOf(lib, part).Err?;
  }

  /**
    An attachment of multipart/mixed that cannot be read stops the walk
    when it has a transfer encoding (decodeContent rejects an unknown one
    and reads the part to the end for the others) or when it is an
    application/octet-stream part read by decodeAttachment itself.
  */
  lemma UnreadableAttachmentStopsWalk(lib: Library, body: string, part: Part, acc: Walk, now: nat -> int, mt: MediaType)
    requires lib.Valid() && |part.body| < |body| && part.unreadable
    requires PartMediaType(lib, part) == Ok(mt)
    requires mt.mediaType !in {TextPlain, TextHtml, MultipartAlternative, MultipartRelated}
    requires IsAttachment(lib, part, mt.mediaType)
    requires Get(part.header, EncodingField) != "" || AttachmentContentType(Get(part.header, ContentTypeField)) == OctetStream
    ensures MixedStep(lib, body, part, acc, now).Stop? && MixedStep(lib, body, part, acc, now).walk == acc
    ensures DecodeContent(lib, part.body, Get(part.header, EncodingField), Get(part.header, ContentTypeField)).Ok? ==> MixedStep(lib, body, part, acc, now).error == UnreadablePart
  {
    UnreadablePartDecoding(lib, part);
    assert AttachmentOf(lib, part, now(|acc.attachments|)).Err?;
  }

  lemma RawTextsAt(parts: seq<Part>, i: nat, end: Option<Error>)
    requires i < |parts|
    ensures !parts[i].unreadable ==> RawTexts(parts[i..]) == TrimSuffix(parts[i].body, "\n") + RawTexts(parts[i + 1..])
    ensures !parts[i].unreadable ==> ReadEnd(parts[i..], end) == ReadEnd(parts[i + 1..], end)
    ensures parts[i].unreadable ==> RawTexts(parts[i..]) == "" && ReadEnd(parts[i..], end) == Some(UnreadablePart)
  {
    assert parts[i..][0] == parts[i];
    assert parts[i..][1..] == parts[i + 1..];
  }

  lemma DecodedTextsAt(lib: Library, parts: seq<Part>, i: nat)
    requires i < |parts| && LeafText(lib, parts[i]).Ok?
    ensures DecodedTexts(lib, parts[i..]) == LeafText(lib, parts[i]).value + DecodedTexts(lib, parts[i + 1..])
  {
    assert parts[i..][1..] == parts[i + 1..];
  }

  lemma AppendNothing(acc: Walk)
    ensures acc.(textBody := acc.textBody + "") == acc
  {
    assert acc.textBody + "" == acc.textBody;
  }

  lemma AppendTwice(acc: Walk, a: string, b: string)
    ensures acc.(textBody := acc.textBody + a).(textBody := acc.textBody + a + b) == acc.(textBody := acc.textBody + (a + b))
  {
    assert acc.textBody + a + b == acc.textBody + (a + b);
  }

  /**
    A multipart/related body made only of text/plain parts yields their
    bodies concatenated as they arrived, whatever their
    Content-Transfer-Encoding says, up to the first part that cannot be
    read; the walk ends with that read error, or else with the error the
    stream ended with.
  */
  lemma {:induction false} RelatedKeepsTextRaw(lib: Library, body: string, st: PartStream, i: nat, acc: Walk)
    requires lib.Valid() && Shrinks(st, body) && i <= |st.parts|
    requires forall j :: i <= j < |st.parts| ==> IsTextPlain(lib, st.parts[j])
    ensures RelatedParts(lib, body, st, i, acc)
         == Outcome(acc.(textBody := acc.textBody + RawTexts(st.parts[i..])), ReadEnd(st.parts[i..], StreamEnd(st)))
    decreases |st.parts| - i
  {
    if i == |st.parts| {
      RelatedEndsWithStream(lib, body, st, acc);
    } else if st.parts[i].unreadable {
      RelatedStopsAtUnreadableText(lib, body, st, i, acc);
    } else {
      RelatedKeepsTextRaw(lib, body, st, i + 1, acc.(textBody := acc.textBody + TrimSuffix(st.parts[i].body, "\n")));
      RelatedReadsTextOn(lib, body, st, i, acc);
    }
  }

  lemma RelatedEndsWithStream(lib: Library, body: string, st: PartStream, acc: Walk)
    requires lib.Valid() && Shrinks(st, body)
    ensures RelatedParts(lib, body, st, |st.parts|, acc)
         == Outcome(acc.(textBody := acc.textBody + RawTexts(st.parts[|st.parts|..])), ReadEnd(st.parts[|st.parts|..], StreamEnd(st)))
  {
    assert st.parts[|st.parts|..] == [];
    AppendNothing(acc);
  }

  lemma RelatedReadsTextOn(lib: Library, body: string, st: PartStream, i: nat, acc: Walk)
    requires lib.Valid() && Shrinks(st, body) && i < |st.parts|
    requires IsTextPlain(lib, st.parts[i]) && !st.parts[i].unreadable
    requires var w := acc.(textBody := acc.textBody + TrimSuffix(st.parts[i].body, "\n"));
             (RelatedParts(lib, body, st, i + 1, w)
              == Outcome(w.(textBody := w.textBody + RawTexts(st.parts[i + 1..])), ReadEnd(st.parts[i + 1..], StreamEnd(st))))
    ensures RelatedParts(lib, body, st, i, acc)
         == Outcome(acc.(textBody := acc.textBody + RawTexts(st.parts[i..])), ReadEnd(st.parts[i..], StreamEnd(st)))
  {
    var text := TrimSuffix(st.parts[i].body, "\n");
    RawTextsAt(st.parts, i, StreamEnd(st));
    RelatedTextStep(lib, body, st, i, acc);
    AppendTwice(acc, text, RawTexts(st.parts[i + 1..]));
  }

  lemma RelatedStopsAtUnreadableText(lib: Library, body: string, st: PartStream, i: nat, acc: Walk)
    requires lib.Valid() && Shrinks(st, body) && i < |st.parts|
    requires IsTextPlain(lib, st.parts[i]) && st.parts[i].unreadable
    ensures RelatedParts(lib, body, st, i, acc)
         == Outcome(acc.(textBody := acc.textBody + RawTexts(st.parts[i..])), ReadEnd(st.parts[i..], StreamEnd(st)))
  {
    RawTextsAt(st.parts, i, StreamEnd(st));
    assert RelatedStep(lib, body, st.parts[i], acc) == Stop(acc, UnreadablePart);
    AppendNothing(acc);
  }

  /**
    A multipart/alternative body made only of text/plain parts that decode
    yields their decoded bodies concatenated in order.
  */
  lemma {:induction false} AlternativeDecodesText(lib: Library, body: string, st: PartStream, i: nat, acc: Walk)
    requires lib.Valid() && Shrinks(st, body) && i <= |st.parts|
    requires forall j :: i <= j < |st.parts| ==> IsTextPlain(lib, st.parts[j]) && LeafText(lib, st.parts[j]).Ok?
    ensures AlternativeParts(lib, body, st, i, acc)
         == Outcome(acc.(textBody := acc.textBody + DecodedTexts(lib, st.parts[i..])), StreamEnd(st))
    decreases |st.parts| - i
  {
    if i < |st.parts| {
      var text := LeafText(lib, st.parts[i]).value;
      AlternativeTextStep(lib, body, st, i, acc);
      AlternativeDecodesText(lib, body, st, i + 1, acc.(textBody := acc.textBody + text));
      DecodedTextsAt(lib, st.parts, i);
      AppendTwice(acc, text, DecodedTexts(lib, st.parts[i + 1..]));
    } else {
      AppendNothing(acc);
    }
  }

  // ---------------------------------------------------------------------
  // Which leaves a walker refuses

  /** The errors a leaf decoder can report are never classification errors. */
  lemma DecodeErrorIsNotClassification(lib: Library, part: Part)
    ensures LeafText(lib, part).Err? ==> !LeafText(lib, part).error.UnsupportedPartType?
    ensures EmbeddedFileOf(lib, part).Err? ==> !EmbeddedFileOf(lib, part).error.UnsupportedPartType?
    ensures forall id :: AttachmentOf(lib, part, id).Err? ==> !AttachmentOf(lib, part, id).error.UnsupportedPartType?
  {
  }

  /** A step stopped because the part's media type has no place in the enclosing multipart. */
  predicate Refused(r: Step) {
    r.Stop? && r.error.UnsupportedPartType?
  }

  /**
    In multipart/related, a leaf that is neither text nor a nested
    multipart/alternative is refused exactly when it has no
    Content-Transfer-Encoding; the others become embedded files.
  */
  lemma RelatedRefusesUnencodedLeaves(lib: Library, body: string, part: Part, acc: Walk, mt: MediaType)
    requires lib.Valid() && |part.body| < |body|
    requires PartMediaType(lib, part) == Ok(mt)
    requires mt.mediaType !in {TextPlain, TextHtml, MultipartAlternative}
    ensures Refused(RelatedStep(lib, body, part, acc)) <==> !IsEmbeddedFile(part)
    ensures !IsEmbeddedFile(part) ==>
              RelatedStep(lib, body, part, acc) == Stop(acc, UnsupportedPartType(MultipartRelated, mt.mediaType))
  {
    DecodeErrorIsNotClassification(lib, part);
  }

  /** The same for multipart/alternative, whose nested multipart is multipart/related. */
  lemma AlternativeRefusesUnencodedLeaves(lib: Library, body: string, part: Part, acc: Walk, mt: MediaType)
    requires lib.Valid() && |part.body| < |body|
    requires PartMediaType(lib, part) == Ok(mt)
    requires mt.mediaType !in {TextPlain, TextHtml, MultipartRelated}
    ensures Refused(AlternativeStep(lib, body, part, acc)) <==> !IsEmbeddedFile(part)
    ensures !IsEmbeddedFile(part) ==>
              AlternativeStep(lib, body, part, acc) == Stop(acc, UnsupportedPartType(MultipartAlternative, mt.mediaType))
  {
    DecodeErrorIsNotClassification(lib, part);
  }

  /**
    In multipart/mixed, a leaf that is neither text nor a nested multipart
    is refused exactly when it is no attachment: it has no filename and is
    not application/octet-stream.
  */
  lemma MixedRefusesNonAttachments(lib: Library, body: string, part: Part, acc: Walk, now: nat -> int, mt: MediaType)
    requires lib.Valid() && |part.body| < |body|
    requires PartMediaType(lib, part) == Ok(mt)
    requires mt.mediaType !in {TextPlain, TextHtml, MultipartAlternative, MultipartRelated}
    ensures Refused(MixedStep(lib, body, part, acc, now)) <==> !IsAttachment(lib, part, mt.mediaType)
    ensures !IsAttachment(lib, part, mt.mediaType) ==>
              MixedStep(lib, body, part, acc, now) == Stop(acc, UnsupportedPartType(MultipartMixed, mt.mediaType))
  {
    DecodeErrorIsNotClassification(lib, part);
  }

  // ---------------------------------------------------------------------
  // Nested walks

  /**
    Inside multipart/related or multipart/alternative, a nested walk that
    succeeds is appended to what came before, and one that fails leaves
    the accumulators as they were before the part.
  */
  lemma NestedWalkAppends(lib: Library, body: string, part: Part, acc: Walk, mt: MediaType)
    requires lib.Valid() && |part.body| < |body|
    requires PartMediaType(lib, part) == Ok(mt)
    ensures mt.mediaType == MultipartAlternative ==>
              var nested := Alternative(lib, part.body, Param(mt.params, "boundary"));
              RelatedStep(lib, body, part, acc)
                == if nested.err.None? then Next(Merged(acc, nested.walk)) else Stop(acc, nested.err.value)
    ensures mt.mediaType == MultipartRelated ==>
              var nested := Related(lib, part.body, Param(mt.params, "boundary"));
              AlternativeStep(lib, body, part, acc)
                == if nested.err.None? then Next(Merged(acc, nested.walk)) else Stop(acc, nested.err.value)
  {
  }

  /**
    Inside multipart/mixed, a nested multipart/alternative or
    multipart/related walk replaces the text, HTML and embedded files
    gathered so far, also when it fails, and keeps the attachments.
  */
  lemma MixedNestedWalkReplaces(lib: Library, body: string, part: Part, acc: Walk, now: nat -> int, mt: MediaType)
    requires lib.Valid() && |part.body| < |body|
    requires PartMediaType(lib, part) == Ok(mt)
    requires mt.mediaType == MultipartAlternative || mt.mediaType == MultipartRelated
    ensures var boundary := Param(mt.params, "boundary");
            var nested := if mt.mediaType == MultipartAlternative then Alternative(lib, part.body, boundary)
                          else Related(lib, part.body, boundary);
            var r := MixedStep(lib, body, part, acc, now);
            && r.walk.textBody == nested.walk.textBody
            && r.walk.htmlBody == nested.walk.htmlBody
            && r.walk.embeddedFiles == nested.walk.embeddedFiles
            && r.walk.attachments == acc.attachments
            && (r.Stop? <==> nested.err.Some?)
            && (r.Stop? ==> r.error == nested.err.value)
  {
  }

  /** A multipart/related part whose walk succeeds without finding text. */
  predicate NestedRelatedWithoutText(lib: Library, part: Part)
    requires lib.Valid()
  {
    && PartMediaType(lib, part).Ok?
    && PartMediaType(lib, part).value.mediaType == MultipartRelated
    && var nested := Related(lib, part.body, Param(PartMediaType(lib, part).value.params, "boundary"));
       nested.err.None? && nested.walk.textBody == ""
  }

  /**
    So the text gathered before such a part of multipart/mixed is lost:
    the walk goes on from it with no text at all.
  */
  lemma MixedNestedPartDiscardsText(lib: Library, body: string, st: PartStream, i: nat, acc: Walk, now: nat -> int) returns (w: Walk)
    requires lib.Valid() && Shrinks(st, body) && i < |st.parts| && NestedRelatedWithoutText(lib, st.parts[i])
    ensures w.textBody == ""
    ensures MixedParts(lib, body, st, i, acc, now) == MixedParts(lib, body, st, i + 1, w, now)
  {
    var mt := PartMediaType(lib, st.parts[i]).value;
    MixedNestedWalkReplaces(lib, body, st.parts[i], acc, now, mt);
    w := MixedStep(lib, body, st.parts[i], acc, now).walk;
  }


  // ---------------------------------------------------------------------
  // Embedded files and attachments

  /** A pattern whose first byte never occurs does not occur. */
  lemma AbsentFirstByte(s: string, p: string)
    requires |p| > 0 && p[0] !in s
    ensures !Contains(s, p)
  {
  }

  /** A bracketed id with no '=' is left alone by the header-word decoder. */
  lemma BracketedIdIsPlain(lib: Library, id: string)
    requires lib.Valid() && '=' !in id
    ensures MimeSentence(lib, "<" + id + ">") == "<" + id + ">"
  {
    var value := "<" + id + ">";
    assert value == ['<'] + id + ['>'];
    assert '=' !in value;
    AbsentFirstByte(value, "=?");
    assert ToLower(value)[0] == '<' by { ToLowerAt(value, 0); }
    PlainSentenceUnchanged(lib, value);
  }

  /** A Content-Id written `<id>` with no '=' in the id gives the embedded file the bare id. */
  lemma BracketedContentIdIsBare(lib: Library, part: Part, id: string)
    requires lib.Valid()
    requires Get(part.header, ContentIdField) == "<" + id + ">"
    requires id != [] && '=' !in id && Trimmed(id, "<>")
    ensures EmbeddedFileOf(lib, part).Ok? ==> EmbeddedFileOf(lib, part).value.cid == id
  {
    BracketedIdIsPlain(lib, id);
    assert "<" + id + ">" == ['<'] + id + ['>'];
    TrimWrapped('<', id, '>', "<>");
  }

  /** The content type of an attachment is the header up to its first ';': a prefix of it without ';'. */
  lemma AttachmentContentTypeIsFirstSegment(header: string)
    ensures ';' !in AttachmentContentType(header)
    ensures HasPrefix(header, AttachmentContentType(header))
    ensures ';' !in header ==> AttachmentContentType(header) == header
  {
    SplitPiecesAvoidSeparator(header, ";");
    SplitFirst(header, ";");
    if ';' !in header {
      SplitSingle(header, ";");
    }
  }

  /** An attachment without a filename, or whose filename decodes to "", is named after the clock. */
  lemma UnnamedAttachmentGetsFallbackName(lib: Library, part: Part, id: int)
    requires lib.Valid() && FileName(lib, part) == ""
    ensures AttachmentOf(lib, part, id).Ok? ==> AttachmentOf(lib, part, id).value.attachment.filename == FallbackName(id)
  {
    EmptySentenceUnchanged(lib);
    AttachmentName(lib, part, id);
  }

  /** The name decodeAttachment gives: the decoded filename, or the fallback when that is empty. */
  lemma AttachmentName(lib: Library, part: Part, id: int)
    ensures AttachmentOf(lib, part, id).Ok? ==>
              var decoded := MimeSentence(lib, FileName(lib, part));
              AttachmentOf(lib, part, id).value.attachment.filename == if decoded == "" then FallbackName(id) else decoded
  {
  }

  /** Distinct clock readings give distinct fallback names. */
  lemma FallbackNamesDiffer(m: int, n: int)
    requires m != n
    ensures FallbackName(m) != FallbackName(n)
  {
    FormatIntInjective(m, n);
    var prefix := "attachment-";
    assert FallbackName(m)[|prefix|..] == FormatInt(m);
    assert FallbackName(n)[|prefix|..] == FormatInt(n);
  }

  /**
    An application/octet-stream attachment holds what the transfer decoder
    left in the part: the raw body when there is no
    Content-Transfer-Encoding, nothing otherwise.
  */
  lemma OctetStreamHoldsUnreadBody(lib: Library, part: Part, id: int)
    requires AttachmentContentType(Get(part.header, ContentTypeField)) == OctetStream
    requires AttachmentOf(lib, part, id).Ok?
    ensures Drained(AttachmentOf(lib, part, id).value).data
         == if ToLower(Get(part.header, EncodingField)) == "" then part.body else ""
  {
  }

  /**
    Any other attachment without a Content-Transfer-Encoding is a reader
    over the part, which the walker's next NextPart drains: its data reads
    empty.  With an encoding it holds the decoded body.
  */
  lemma OtherAttachmentData(lib: Library, part: Part, id: int)
    requires AttachmentContentType(Get(part.header, ContentTypeField)) != OctetStream
    requires AttachmentOf(lib, part, id).Ok?
    ensures ToLower(Get(part.header, EncodingField)) == "" ==> Drained(AttachmentOf(lib, part, id).value).data == ""
    ensures ToLower(Get(part.header, EncodingField)) != "" ==>
              Drained(AttachmentOf(lib, part, id).value).data
                == DecodeContent(lib, part.body, Get(part.header, EncodingField), Get(part.header, ContentTypeField)).value.data
  {
  }

  /** multipart/mixed appends one attachment per attachment leaf, named by the clock reading for its position. */
  lemma MixedAppendsAttachment(lib: Library, body: string, part: Part, acc: Walk, now: nat -> int, mt: MediaType)
    requires lib.Valid() && |part.body| < |body|
    requires PartMediaType(lib, part) == Ok(mt)
    requires mt.mediaType !in {TextPlain, TextHtml, MultipartAlternative, MultipartRelated}
    requires IsAttachment(lib, part, mt.mediaType)
    requires AttachmentOf(lib, part, now(|acc.attachments|)).Ok?
    ensures MixedStep(lib, body, part, acc, now)
         == Next(acc.(attachments := acc.attachments + [Drained(AttachmentOf(lib, part, now(|acc.attachments|)).value)]))
  {
  }
}
