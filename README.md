# MIME decoding core of go-smtpsrv

This project models the part of go-smtpsrv that turns a received message
into an `Email` value, and proves properties of that model in Dafny. The
code is in `parser.go`. It has four parts:

- **Content-Type handling.** `sanitizeContentTypeHeader` drops repeated
  parameters. `parseContentType` resolves the top-level media type and
  falls back to `text/plain` for an empty header. These are the
  `ContentType` module.
- **Transfer-encoding and charset dispatch.** `decodeContent` handles
  base64 (section 6.8 of RFC 2045), quoted-printable (section 6.7 of
  RFC 2045), 7bit, 8bit and the empty encoding. `decodeCharset` then maps
  the bytes through one of four single-byte charmaps. These are the
  `TransferDecoding` module.
- **Header decoding.** `decodeMimeSentence` handles RFC 2047 encoded
  words, with its KOI8-R fast path `decodeKoi8`, and `decodeHeaderMime` is
  also here; both are the `HeaderDecoding` module. The `headerParser`
  methods and `createEmailFromHeader` are the `HeaderParsing` module.
- **The multipart walk.** `ParseEmail` is the top-level switch (module
  `EmailParser`). `parseMultipartMixed`, `parseMultipartAlternative` and
  `parseMultipartRelated` are the walkers, with their leaf helpers
  (module `MultipartWalk`). The properties of the walk are in
  `WalkProperties`.

`GoStrings` models the few Go `strings` and `strconv` functions the code
uses. Bytes are `char`s; lower-casing and space trimming are the ASCII
cases of Go's Unicode-aware functions (see "Left out"). `Platform` holds
the foreign libraries.

## How the model is built

- **Libraries.** Every foreign library call is a function-valued field of
  `Platform.Library`. This covers `mail.ReadMessage`,
  `mime.ParseMediaType` and the multipart splitter. It also covers
  `mime.WordDecoder`, the base64 and quoted-printable readers, the charmap
  tables, `mail.ParseAddress(List)`, `time.Parse` and `filepath.Base`.
  `Library.Valid()` collects the small facts the decoder relies on. One of
  them is that every part the splitter returns is strictly shorter than
  its body. That fact is the termination measure of the mutually
  recursive walkers.
- **Methods and spec functions.** Each loop of the source is a method
  proved equal to a specification function. This covers the sanitizer,
  `decodeMimeSentence`, `decodeHeaderMime`, `parseTime`,
  `parseMessageIdList`, the three walkers and `ParseEmail`. The
  properties are lemmas about those functions.
- **Walkers.** A walker folds a step function over the part stream, one
  call per `NextPart`. An `XIteration` method runs one step of the loop,
  and the `ParseMultipartX` method is the loop.
- **Clock.** `time.Now().UnixNano()` in the fallback attachment name is
  the parameter `now`. It is indexed by the number of attachments
  collected so far.

The model follows the code as written. Some of that behaviour is
surprising:

- **Header errors never surface.** Every `headerParser` method has a value
  receiver, so `hp.err = ...` changes a copy. The check at
  parser.go:101 never fires, and `createEmailFromHeader` never returns an
  error. Each field is parsed on its own, and a malformed one gets its
  zero value.
- **Mixed overwrites nested results.** Inside `multipart/mixed`, a nested
  alternative or related part assigns `textBody`, `htmlBody` and
  `embeddedFiles` rather than appending to them. It does so even when the
  nested walk fails. Inside alternative and related, a nested walk
  appends its results, and on an error the results gathered so far are
  returned unchanged.
- **Related text is raw.** `text/plain` and `text/html` leaves of
  `multipart/related` are read as they are, with no transfer or charset
  decoding.
- **Parts need a Content-Type.** A part's media type has no `text/plain`
  default, so a part without a Content-Type stops the walk.
- **Attachment data depends on what is left unread.** Go's `NextPart`
  drains the previous part. An attachment whose Data is still a reader
  over the part therefore reads empty once the walk moves on. That is an
  attachment with no transfer encoding whose media type is not
  `application/octet-stream`.
  - For `application/octet-stream`, Data is what `decodeContent` left
    unread in the part: the whole raw body for the empty encoding, and
    nothing otherwise.
  - `TransferDecoding.Decoded.unread` and `MultipartWalk.Drained` carry
    this behaviour.
- **NextPart decodes quoted-printable.** `NextPart` itself undoes a
  quoted-printable transfer encoding (section 6.7 of RFC 2045) while the
  part is read, and removes that header field. The `nextParts` library
  function delivers parts already in that form (`Platform.Delivered`, a
  conjunct of `Library.Valid()`).
- **Reading a part can fail.** The read of a part fails on malformed
  quoted-printable input, and on a part cut off before its closing
  delimiter whatever its encoding, so a `Part` carries `unreadable`.
  Every read of such a part to its end fails with `UnreadablePart`:
  - decodeContent for base64, 7bit and 8bit (`MultipartWalk.DecodePart`),
    so embedded files and encoded attachments fail as well;
  - the raw text and HTML leaves of multipart/related;
  - the text and HTML leaves of the other walkers, after decodeContent;
  - the `io.ReadAll` of an application/octet-stream attachment.
  For the empty encoding decodeContent reads nothing, and the error comes
  with the read that follows.
- **Reading the message body can fail.** The reader `ParseEmail` is given
  can fail too, so a `Message` carries `unreadable` as a part does, and
  decodeContent runs over it as over a part (`EmailParser.BodyPart`). A
  text/plain body keeps what was read and drops the error
  (`message, _ := io.ReadAll`). A text/html body returns the error and
  leaves HTMLBody unset.
- **File names and charset names.**
  - `multipart.Part.FileName` reads only the Content-Disposition
    `filename` parameter, never a Content-Type `name` parameter
    (`Platform.FileName`).
  - `decodeCharset` takes the text between the first and the second
    `"; charset="`, so a parameter that follows stays in the name
    (`SemicolonStaysInName`).

## Model

| member | source | states |
|---|---|---|
| ContentType.SanitizeContentTypeHeader | parser.go:592-615 | the loop returns `Sanitized`: the `;`-split pieces, trimmed, empty ones skipped, a parameter dropped when its lower-cased key was seen before, joined with `"; "` |
| ContentType.SanitizeEmpty | parser.go:592-615 | an empty header sanitizes to the empty string |
| ContentType.KeptSegmentsAreTrimmed | parser.go:596-601 | every kept segment is non-empty and has no leading or trailing whitespace |
| ContentType.KeptAvoids | parser.go:593-611 | a byte that no split piece contains appears in no kept segment |
| ContentType.KeptKeysUnseen | parser.go:602-609 | no kept parameter has a key that was already seen |
| ContentType.KeptHasDistinctKeys | parser.go:602-609 | the kept parameters have pairwise distinct keys, none of them among the keys seen before |
| ContentType.DistinctKeysPairwise | parser.go:602-609 | distinct keys, stated recursively, means that no two parameter segments at different indexes share a key |
| ContentType.KeptKeysDistinct | parser.go:602-609 | no two kept segments with an `=` have the same lower-cased key |
| ContentType.KeptKeepsPlainSegments | parser.go:597-611 | segments without `=` are never dropped: the kept ones are exactly the input's non-empty plain segments, in order |
| ContentType.KeptParamsComeFirst | parser.go:602-611 | first occurrence wins: every kept parameter is the first segment of the input with its key |
| ContentType.KeptKeepsFirstOfEachKey | parser.go:602-611 | the first segment with each key not yet seen is kept |
| ContentType.KeptOfClean | parser.go:596-611 | pieces that trim to distinct-keyed segments are kept exactly as those segments |
| ContentType.CleanTail | parser.go:602-609 | the tail of a clean segment list is clean, and its keys are among the list's and exclude the head's |
| ContentType.SanitizeCleanIsIdentity | parser.go:592-615 | a header that is already a `"; "` join of clean segments sanitizes to itself |
| ContentType.KeptIsClean | parser.go:593-612 | what the loop keeps is clean: trimmed, non-empty, free of `;`, with distinct keys |
| ContentType.SanitizeIsIdempotent | parser.go:592-615 | sanitizing twice gives the same string as sanitizing once |
| ContentType.ParamKey | parser.go:602-604 | a `key=value` segment is a parameter whose key is the lower-cased text before the first `=` |
| ContentType.KeptDropsSeenKey | parser.go:604-606 | a parameter whose key was seen is skipped |
| ContentType.KeptKeepsFirstParam | parser.go:602-611 | of two parameters with the same key, only the first is kept |
| ContentType.KeptDropsRepeatedKey | parser.go:596-612 | a media type followed by two parameters with one key keeps the media type and the first parameter |
| ContentType.SanitizeDropsRepeatedKey | parser.go:590-615 | `mt; k=a; k=b` with equal lower-cased keys sanitizes to `mt; k=a` |
| ContentType.SanitizeKeepsSingleParam | parser.go:592-615 | `mt; k=v` passes through unchanged |
| ContentType.ParamSegment | parser.go:597-601 | a `key=value` segment with no `;` and no outer whitespace is a segment the sanitizer can emit unchanged |
| ContentType.TestMediaTypeIsPlain | parser_test.go:17-19 | the test media type has no `=`, so it is always kept |
| ContentType.TestCharsetParam | parser_test.go:17-38 | the three charset parameters of the tests are clean segments with the key `charset` |
| ContentType.SanitizeTestWithoutDuplicates | parser_test.go:14-20 | `text/plain; charset=utf-8` is unchanged |
| ContentType.SanitizeTestSameCase | parser_test.go:21-27 | `text/plain; charset=utf-8; charset=utf-8` becomes `text/plain; charset=utf-8` |
| ContentType.SanitizeTestDifferentCase | parser_test.go:28-34 | `text/plain; charset=utf-8; charset=UTF-8` becomes `text/plain; charset=utf-8` |
| ContentType.SanitizeTestDifferentCaseQuoted | parser_test.go:35-41 | `text/plain; charset=utf-8; charset="UTF-8"` becomes `text/plain; charset=utf-8` |
| ContentType.ParseContentType | parser.go:116-128 | an empty header is `text/plain` with empty parameters, without the sanitizer. Otherwise the result is ParseMediaType of the sanitized header, and it fails exactly when that fails, with an error naming the raw header |
| TransferDecoding.CharsetName | parser.go:189-193 | a header without `"; charset="` has the name `default`; the name after the marker is stated by `CharsetNameAfterMarker` |
| TransferDecoding.CharsetOf | parser.go:195-205 | exactly the four names `windows-1252`, `iso-8859-1`, `koi8-r` and `windows-1251` select a charmap |
| TransferDecoding.Transcode | parser.go:204 | decoding no bytes through a charmap gives no bytes; that it works byte by byte and keeps ASCII is stated by `TranscodeConcat` and `TranscodeAscii` |
| TransferDecoding.DecodeCharset | parser.go:188-209 | the bytes are unchanged unless a known charset is named; otherwise each byte is replaced by its table entry |
| TransferDecoding.DecodeContent | parser.go:479-512 | the error `unknown encoding` comes back exactly for a lower-cased encoding outside the five known ones. 7bit, 8bit and the empty encoding pass the bytes to the charset step unchanged. base64 and quoted-printable succeed exactly when their decoder does, and their output goes to the charset step. Only the empty encoding leaves the body unread |
| TransferDecoding.TranscodeConcat | parser.go:204 | the charmap decoder works byte by byte: it distributes over concatenation |
| TransferDecoding.TranscodeAscii | parser.go:204 | the charmap decoder keeps ASCII bytes unchanged |
| TransferDecoding.DecodeCharsetOnlyForKnownNames | parser.go:202-208 | a name outside the four tables leaves the bytes unchanged |
| TransferDecoding.DecodeCharsetKeepsAscii | parser.go:188-209 | ASCII content is unchanged whatever the charset |
| TransferDecoding.TableNamesHaveNoSemicolon | parser.go:195-200 | a name containing `;` selects no charmap |
| TransferDecoding.CharsetNameAfterMarker | parser.go:190-192 | the name is the text after the marker, trimmed of ` "'\n\r` and lower-cased, when the marker occurs once |
| TransferDecoding.SemicolonSurvivesNormalising | parser.go:192 | a `;` inside the value survives the trimming and lower-casing |
| TransferDecoding.SemicolonStaysInName | parser.go:190-192 | a parameter after the charset stays in the name |
| TransferDecoding.FollowingParameterDefeatsLookup | parser.go:190-208 | `...; charset=koi8-r; format=flowed` leaves the bytes unchanged |
| TransferDecoding.MarkerNeedsTheSpace | parser.go:190-208 | without `"; "` anywhere, e.g. `;charset=koi8-r`, no charset is applied |
| TransferDecoding.QuotedKoi8Name | parser.go:192 | `"KOI8-R"` with its quotes normalises to `koi8-r` |
| TransferDecoding.QuotedUpperCaseNameSelects | parser.go:190-204 | `; charset="KOI8-R"` selects the KOI8-R table |
| TransferDecoding.EncodingNameIgnoresCase | parser.go:480 | two encoding names that are equal in lower case decode alike |
| TransferDecoding.MixedCaseBase64IsAccepted | parser.go:480-488 | `Base64` is accepted and decodes like `base64` |
| TransferDecoding.EmptyEncodingPassesContent | parser.go:506-507 | the empty encoding only applies the charset, and leaves the whole body unread |
| HeaderDecoding.DecodeKoi8AsWritten | parser.go:374-413 | text comes back only for a value that starts with `=?koi8-r` in any case; the slicing panics exactly for such a value shorter than 13 bytes |
| HeaderDecoding.DecodeKoi8 | parser.go:374-413 | the corrected decodeKoi8: it succeeds only for a marked value of at least 13 bytes |
| HeaderDecoding.Koi8AgreesWhenLongEnough | parser.go:374-413 | wherever the code as written does not panic, the corrected function gives the same answer, and a panic becomes a decline |
| HeaderDecoding.Koi8ShortValuePanics | parser.go:379-381 | `=?koi8-r?=` (10 bytes) makes the code as written slice out of range |
| HeaderDecoding.Koi8ShortValueFallsThrough | parser.go:350-355 | the corrected function declines that value, so decodeMimeSentence goes on to the word path |
| HeaderDecoding.Koi8ReadsOnlySelectorAndPayload | parser.go:380-392 | the result depends only on the case-folded byte at index 9 and the bytes between index 11 and the last two, which are never checked to be `?=` |
| HeaderDecoding.Koi8UnknownSelectorDeclines | parser.go:399-402 | a selector other than `b` or `q` declines |
| HeaderDecoding.Koi8Base64Selector | parser.go:386-412 | selector `b` succeeds exactly when the base64 payload decodes, and gives its KOI8-R transcoding |
| HeaderDecoding.Koi8QuotedPrintableSelector | parser.go:392-412 | selector `q` succeeds exactly when the quoted-printable payload decodes, and gives its KOI8-R transcoding |
| HeaderDecoding.Piece | parser.go:358-368 | a token that decodes contributes its text; one that does not contributes itself, after one space unless it is the first token |
| HeaderDecoding.Pieces | parser.go:355-369 | one piece per space-split token, in order |
| HeaderDecoding.DecodeMimeSentence | parser.go:347-372 | the loop returns the KOI8-R text when that path succeeds, and otherwise the concatenated pieces |
| HeaderDecoding.UndecodedPiecesRejoin | parser.go:355-371 | when no token decodes, the pieces join back into the tokens joined by single spaces |
| HeaderDecoding.UndecodedSentenceUnchanged | parser.go:347-372 | a value with no KOI8-R word and no decodable token is returned unchanged |
| HeaderDecoding.PlainSentenceUnchanged | parser.go:347-372 | a value that does not start with `=?koi8-r` and has no `=?` is returned unchanged |
| HeaderDecoding.EmptySentenceUnchanged | parser.go:347-372 | the empty value decodes to the empty value |
| HeaderDecoding.AdjacentWordsJoinWithoutSpace | parser.go:357-371 | two encoded words separated by a space decode to their texts with no space between them |
| HeaderDecoding.PlainWordAfterEncodedKeepsSpace | parser.go:357-371 | a plain word after an encoded one keeps one separating space |
| HeaderDecoding.DecodedValues | parser.go:420-423 | every value of a field is decoded, in order |
| HeaderDecoding.DecodedHeader | parser.go:415-429 | the decoded header has the same field names, each with its values decoded |
| HeaderDecoding.DecodeHeaderMime | parser.go:415-429 | the loop builds the decoded header and never returns an error |
| HeaderDecoding.DecodedHeaderGet | parser.go:415-429 | looking a field up in the decoded header gives its first raw value, decoded |
| HeaderDecoding.PlainHeaderUnchanged | parser.go:415-429 | a header without encoded words decodes to itself |
| HeaderParsing.AddressOf | parser.go:519-531 | a blank value (only spaces and newlines) gives nil; otherwise the result is ParseAddress's, nil on its error |
| HeaderParsing.AddressListOf | parser.go:533-544 | a blank value or a malformed list gives the empty list; otherwise the result is ParseAddressList's |
| HeaderParsing.TimeOf | parser.go:546-566 | an empty value gives the zero time; the layout order and the malformed case are stated by `TimeOfFirstAcceptingLayout` and `MalformedDateIsZeroTime` |
| HeaderParsing.MessageIdOf | parser.go:568-574 | the result has no leading or trailing `<`, `>` or space, and is no longer than the value |
| HeaderParsing.MessageIdsOf | parser.go:576-588 | at most one identifier per token; what each token adds is stated by `MessageIdsStep` and `MessageIdListRoundTrip` |
| HeaderParsing.MessageIdsStep | parser.go:581-585 | each token adds its trimmed identifier at the end unless it is only spaces and newlines |
| HeaderParsing.HeaderParser.ParseAddress | parser.go:519-531 | nil on a parser with an error, and `AddressOf` otherwise; the error it records is lost with the copy |
| HeaderParsing.HeaderParser.ParseAddressList | parser.go:533-544 | the empty list on a parser with an error, and `AddressListOf` otherwise |
| HeaderParsing.HeaderParser.ParseTime | parser.go:546-566 | the zero time on a parser with an error; otherwise the loop returns the first layout's successful parse, or the zero time |
| HeaderParsing.HeaderParser.ParseMessageId | parser.go:568-574 | "" on a parser with an error, and the trimmed identifier otherwise |
| HeaderParsing.HeaderParser.ParseMessageIdList | parser.go:576-588 | the loop collects the identifiers of the non-blank tokens, in order |
| HeaderParsing.CreateEmailFromHeader | parser.go:78-114 | never returns an error; every field is parsed on its own from the raw header, and the Header field is the decoded header |
| HeaderParsing.FirstAcceptingLayoutWins | parser.go:558-563 | the first layout that parses the value decides the time |
| HeaderParsing.NoLayoutGivesZeroTime | parser.go:558-565 | when no layout parses, the zero time comes back |
| HeaderParsing.TimeOfFirstAcceptingLayout | parser.go:546-566 | a non-empty Date takes the time of the first of the four layouts that parses it |
| HeaderParsing.MalformedDateIsZeroTime | parser.go:546-566 | a date no layout parses becomes the zero time, not an error |
| HeaderParsing.MessageIdOfBracketed | parser.go:568-574 | `<id>` of a bare identifier trims to `id` |
| HeaderParsing.MessageIdsOfBracketed | parser.go:576-588 | bracketed bare identifiers come back as the identifiers, in order |
| HeaderParsing.MessageIdListRoundTrip | parser.go:576-588 | a space-joined list of `<id>` tokens parses back to the identifiers |
| HeaderParsing.FromFieldIsParsedOnItsOwn | parser.go:78-104 | changing the From field changes no other parsed field |
| HeaderParsing.MalformedFromIsNil | parser.go:83 | a From field that does not parse gives the empty list, and parsing goes on |
| Platform.FileName | parser.go:449-454 | the part has a file name exactly when its Content-Disposition parses and has a non-empty `filename` parameter |
| MultipartWalk.PartMediaType | parser.go:141-145 | a part's media type comes from ParseMediaType of its sanitized Content-Type, with no default; the error names the raw header |
| MultipartWalk.DecodePart | parser.go:479-510 | decodeContent over the part: its own error when it fails; otherwise it fails exactly when the part cannot be read and the encoding is one that is read to the end (base64, quoted-printable, 7bit, 8bit), with the read error; on success it is decodeContent's result |
| MultipartWalk.LeafText | parser.go:229-240 | a text leaf fails exactly when decodeContent fails, with its error, or when the part cannot be read, with the read error |
| MultipartWalk.EmbeddedFileOf | parser.go:435-447 | the content type is the raw Content-Type, the CID has no leading or trailing `<` or `>`, and it fails exactly when decodeContent fails, with its error, or when decodeContent reads a part that cannot be read, with the read error |
| MultipartWalk.FallbackName | parser.go:455-457 | the fallback file name is never empty |
| MultipartWalk.AttachmentOf | parser.go:453-477 | fails exactly when decodeContent fails, with its error, or when a part that cannot be read is read to the end, by decodeContent or by the application/octet-stream `io.ReadAll`, with the read error; a decoded attachment always has a file name |
| MultipartWalk.Drained | parser.go:332-338 | an attachment whose data is still a reader over the part reads empty after the next NextPart; the others keep their data |
| MultipartWalk.Merged | parser.go:168-170 | a nested walk's results extend the accumulators |
| MultipartWalk.Replaced | parser.go:298-307 | a nested walk inside mixed leaves the attachments alone |
| MultipartWalk.RelatedStep | parser.go:141-182 | one part extends the text, HTML and embedded files and adds no attachment |
| MultipartWalk.RelatedParts | parser.go:132-185 | the walk over the remaining parts only extends the accumulators |
| MultipartWalk.Related | parser.go:130-186 | multipart/related never yields attachments |
| MultipartWalk.AlternativeStep | parser.go:222-276 | one part extends the text, HTML and embedded files and adds no attachment |
| MultipartWalk.AlternativeParts | parser.go:213-279 | the walk over the remaining parts only extends the accumulators |
| MultipartWalk.Alternative | parser.go:211-280 | multipart/alternative never yields attachments |
| MultipartWalk.MixedStep | parser.go:292-341 | one part never removes an attachment |
| MultipartWalk.MixedParts | parser.go:284-344 | the attachments collected so far are a prefix of the final ones |
| MultipartWalk.DecodeEmbeddedFile | parser.go:435-447 | the method computes `EmbeddedFileOf`, read errors of the part included, with a zero value on error |
| MultipartWalk.DecodeAttachment | parser.go:453-477 | the method computes `AttachmentOf`, read errors of the part included; the attachment is the zero value when decodeContent fails, and the named application/octet-stream one with the read error when only the final `io.ReadAll` fails |
| MultipartWalk.RelatedIteration | parser.go:141-182 | one loop iteration of parseMultipartRelated is `RelatedStep` |
| MultipartWalk.ParseMultipartRelated | parser.go:130-186 | the loop returns `Related`: the results and the error of the walk |
| MultipartWalk.AlternativeIteration | parser.go:222-276 | one loop iteration of parseMultipartAlternative is `AlternativeStep` |
| MultipartWalk.ParseMultipartAlternative | parser.go:211-280 | the loop returns `Alternative` |
| MultipartWalk.MixedIteration | parser.go:292-341 | one loop iteration of parseMultipartMixed is `MixedStep` |
| MultipartWalk.ParseMultipartMixed | parser.go:282-345 | the loop returns `Mixed` |
| WalkProperties.MissingContentTypeAborts | parser.go:292-296 | a part without Content-Type stops every walker with a media-type error and the accumulators unchanged |
| WalkProperties.RawTexts | parser.go:154 | no parts give no text; the text of a stream, part by part, is stated by `RawTextsAt` and folded by `RelatedKeepsTextRaw` |
| WalkProperties.DecodedTexts | parser.go:240 | no parts give no text; the text of a stream, part by part, is stated by `DecodedTextsAt` and folded by `AlternativeDecodesText` |
| WalkProperties.RelatedTextStep | parser.go:148-154 | related appends a text/plain part's raw body, one trailing newline removed, when the part reads; a part that cannot be read ends the walk with the read error |
| WalkProperties.AlternativeTextStep | parser.go:229-240 | alternative appends a text/plain part's decoded body |
| WalkProperties.MixedTextStep | parser.go:308-319 | mixed appends a text/plain part's decoded body |
| WalkProperties.RelatedHtmlStep | parser.go:155-161 | related appends a text/html part's raw body to the HTML body when the part reads; a part that cannot be read ends the walk with the read error |
| WalkProperties.AlternativeHtmlStep | parser.go:242-253 | alternative appends a text/html part's decoded body to the HTML body |
| WalkProperties.MixedHtmlStep | parser.go:320-331 | mixed appends a text/html part's decoded body to the HTML body |
| WalkProperties.RawTextsAt | parser.go:148-154 | the raw text of a stream is the first part's text followed by the rest, and the reads go on, when that part reads; otherwise there is no text and the reads end with the read error |
| WalkProperties.ReadEndIsFirstFailure | parser.go:148-152 | reading a stream of parts ends with the stream's own end exactly when every part reads, and with the read error otherwise |
| WalkProperties.RelatedStopsAtUnreadableText | parser.go:148-152 | related stops at a text/plain part that cannot be read, with the text gathered before it and the read error |
| WalkProperties.DeliveredPart | parser.go:132-138 | every part the splitter delivers has no quoted-printable Content-Transfer-Encoding left |
| WalkProperties.PassThroughPartDecoding | parser.go:490-507 | decodeContent over a part with no encoding, 7bit or 8bit applies only the charset, and fails exactly when it reads to the end (7bit, 8bit) a part that cannot be read |
| WalkProperties.UnreadablePartDecoding | parser.go:479-510 | decodeContent over a part that cannot be read succeeds exactly for the empty encoding, and then hands on the charset-decoded body with the whole body unread |
| WalkProperties.UnreadableTextStopsWalk | parser.go:148-159 | in every walker, a text/plain or text/html part that cannot be read stops the walk and keeps what was gathered: related with the read error, the others with the error `LeafText` gives |
| WalkProperties.UnreadableEmbeddedFileStopsRelated | parser.go:170-176 | in related, an embedded file that cannot be read (any leaf with an encoding other than text, HTML and nested alternative, nested related included) stops the walk and keeps what was gathered, with the read error when decodeContent itself accepts the encoding |
| WalkProperties.UnreadableEmbeddedFileStopsAlternative | parser.go:264-270 | in alternative, an embedded file that cannot be read (any leaf with an encoding other than text, HTML and nested related, nested alternative included) stops the walk and keeps what was gathered, with the read error when decodeContent itself accepts the encoding |
| WalkProperties.UnreadableAttachmentStopsWalk | parser.go:332-336 | in mixed, an attachment that cannot be read and has a transfer encoding (an unknown one fails in decodeContent, the others read the part to the end) or is application/octet-stream stops the walk and keeps what was gathered, with the read error when decodeContent itself accepts the encoding |
| WalkProperties.DecodedTextsAt | parser.go:240 | the decoded text of a stream is the first part's text followed by the rest |
| WalkProperties.RelatedKeepsTextRaw | parser.go:132-185 | over text/plain parts, related's text body is the parts' raw bodies in document order up to the first part that cannot be read; the walk ends with that read error, or else with the stream's own end |
| WalkProperties.AlternativeDecodesText | parser.go:213-279 | over decodable text/plain parts, alternative's text body is the decoded bodies in document order |
| WalkProperties.DecodeErrorIsNotClassification | parser.go:433-477 | a failing leaf decoder never reports an unsupported part type |
| WalkProperties.RelatedRefusesUnencodedLeaves | parser.go:171-181 | in related, another leaf is refused exactly when it has no Content-Transfer-Encoding, with the related error and the accumulators unchanged |
| WalkProperties.AlternativeRefusesUnencodedLeaves | parser.go:265-276 | in alternative, another leaf is refused exactly when it has no Content-Transfer-Encoding |
| WalkProperties.MixedRefusesNonAttachments | parser.go:332-341 | in mixed, another leaf is refused exactly when it has neither a file name nor the media type application/octet-stream |
| WalkProperties.NestedWalkAppends | parser.go:162-170 | alternative inside related, and related inside alternative, append the child's results, or stop with the child's error and the accumulators unchanged |
| WalkProperties.MixedNestedWalkReplaces | parser.go:298-307 | a nested alternative or related part in mixed replaces text, HTML and embedded files with the child's, keeps the attachments, and stops exactly when the child fails |
| WalkProperties.MixedNestedPartDiscardsText | parser.go:298-307 | after a nested related part without text, the text gathered from earlier siblings is gone |
| WalkProperties.BracketedIdIsPlain | parser.go:436 | `<id>` without `=` passes decodeMimeSentence unchanged |
| WalkProperties.BracketedContentIdIsBare | parser.go:436-442 | an embedded file with Content-Id `<id>` has the CID `id` |
| WalkProperties.AttachmentContentTypeIsFirstSegment | parser.go:465 | an attachment's content type is the raw header up to its first `;`, and is the whole header when it has none |
| WalkProperties.UnnamedAttachmentGetsFallbackName | parser.go:454-457 | an attachment without a file name is called `attachment-<now>` |
| WalkProperties.AttachmentName | parser.go:454-463 | the file name is the decoded FileName, or the fallback when that is empty |
| WalkProperties.FallbackNamesDiffer | parser.go:456 | different clock readings give different fallback names |
| WalkProperties.OctetStreamHoldsUnreadBody | parser.go:467-474 | an application/octet-stream attachment holds the raw body when it has no transfer encoding, and nothing otherwise |
| WalkProperties.OtherAttachmentData | parser.go:458-464 | another attachment holds the decoded body, or nothing when a reader over the part was drained |
| WalkProperties.MixedAppendsAttachment | parser.go:332-338 | mixed appends the decoded attachment to the attachments and changes nothing else |
| EmailParser.WithWalk | parser.go:45-50 | a walk's text, HTML and embedded files go into the Email. Its attachments go in only for mixed, and its error is returned |
| EmailParser.LeafBody | parser.go:51-72 | a decoding error keeps the Email. Otherwise text/plain sets only TextBody, minus one trailing newline, and drops a read error; text/html returns the read error of a body that cannot be read and otherwise sets only HTMLBody, minus one trailing newline; any other type sets only Content |
| EmailParser.Assemble | parser.go:44-73 | keeps every header field. Only multipart/mixed changes Attachments, and only a type outside the five handled ones sets Content |
| EmailParser.ParsedEmail | parser.go:26-76 | there is no Email exactly when ReadMessage fails, and then the error is a malformed message |
| EmailParser.HeaderEmail | parser.go:33-38 | the Email takes the raw Content-Type of the header |
| EmailParser.ParsedMessage | parser.go:39-73 | once the header is parsed there is always an Email, also next to an error, and it keeps every header field |
| EmailParser.ParseEmail | parser.go:26-76 | the method returns `ParsedEmail`'s Email and error |
| EmailParser.HeaderEmailHasNoBody | parser.go:78-114 | createEmailFromHeader leaves every body field empty |
| EmailParser.BadContentTypeSkipsBody | parser.go:39-42 | an unparsable Content-Type returns the header-only Email with the media-type error |
| EmailParser.OnlyMixedHasAttachments | parser.go:44-73 | a parsed Email has attachments only when the message is multipart/mixed |
| EmailParser.ContentOnlyForOtherTypes | parser.go:71-72 | Content is set only in the default branch |
| EmailParser.TextMessageSetsOnlyTextBody | parser.go:51-58 | a text/plain message changes nothing but TextBody |
| EmailParser.HtmlMessageSetsOnlyHtmlBody | parser.go:59-70 | a text/html message changes nothing but HTMLBody |
| EmailParser.MessageWithoutContentTypeIsText | parser.go:116-120 | a message without Content-Type and with no encoding, 7bit or 8bit is text/plain: TextBody is the body minus one trailing newline, with no error, except that 7bit and 8bit report the read error of a body that cannot be read |
| EmailParser.UnreadableHtmlBodyFails | parser.go:59-68 | a text/html message whose body cannot be read returns the Email unchanged with an error, the read error when decodeContent accepts the encoding |
| EmailParser.UnreadableTextBodyKeepsWhatWasRead | parser.go:51-58 | a text/plain message with no encoding whose body cannot be read keeps what was read as TextBody and returns no error |

## Left out

- The SMTP server, session and backend (server.go, session.go, backend.go): network plumbing with no decoding logic.
- The internals of the foreign grammars: `mail.ReadMessage`, address-list parsing, `time.Parse`, `mime.ParseMediaType`, `mime.WordDecoder`, boundary splitting, the base64 and quoted-printable decoders and the charmap tables. They are fields of `Platform.Library` with small contracts in `Library.Valid()`.
- base64.StdEncoding.DecodeString in decodeKoi8 is the same `decodeBase64` library function as the streaming decoder: both accept and reject the same payloads.
- io.Reader laziness beyond one fact: what `decodeContent` leaves unread and whether an attachment's data still reads from the part. All bodies and data are byte strings.
- Which input makes a part's read fail (malformed quoted-printable, or a part cut off before its closing delimiter) and how much of the part was read before it: the splitter is a library field, and `unreadable` records only that the read ends in an error.
- MultipartWalk.DecodePart: for a base64 part that is both cut off and malformed the model reports the base64 error, `MalformedPayload`; Go reports whichever of the two errors its reader meets first. A NextPart error is modelled as the end of the part stream with `failed` set.
- A multipart body that cannot be read, the message's or a nested part's: the splitter `nextParts` is given the bytes read before the error, and whether it reports the error is left to that library function (`PartStream.failed`).
- EmailParser.LeafBody: in the default branch, Content with no transfer encoding is still a reader over the message body, so Go hands a read error of that body to whoever reads Content; the model keeps the bytes read before it.
- An attachment that is still a reader over an unreadable part (no transfer encoding, not application/octet-stream): Go defers its read error to whoever reads the Data after the walk, which then reads nothing; the model keeps the empty data that `Drained` gives.
- Read errors of the in-memory readers `decodeContent` builds over already decoded bytes: they cannot fail.
- The charmap decoder's `io.ReadAll` error in decodeKoi8 (parser.go:406-410): a single-byte table decoder does not fail.
- The `fmt.Println` diagnostics in decodeKoi8: output only.
- `time.Now().UnixNano()`: the parameter `now`, read once per attachment without a file name.
- Go map iteration order in decodeHeaderMime: the header is a map, so order is not observable.
- Error texts: each error is a constructor of `EmailTypes.Error` carrying the values the message names, not the formatted string.
- ContentType.SanitizeContentTypeHeader: keys are lower-cased and values trimmed for ASCII only. Go's `strings.ToLower` also folds non-ASCII letters and `strings.TrimSpace` also trims Unicode spaces, so two keys that differ only in a non-ASCII letter's case, such as `Ä` and `ä`, are both kept here and collapse to one in Go.
- TransferDecoding.CharsetName: the name is lower-cased for ASCII only, and invalid UTF-8 is not replaced by U+FFFD as Go's `strings.ToLower` does; a non-ASCII charset name can differ from Go's and then selects the default charset where Go might select a table.
- TransferDecoding.DecodeContent: the encoding name is lower-cased for ASCII only; a name such as `quoted-prİntable`, which Go lower-cases to `quoted-printable`, is an `UnknownEncoding` here. For the same reason `Platform.AsDelivered` reads `strings.EqualFold` in NextPart for ASCII case only.
- HeaderDecoding.DecodeKoi8AsWritten: the `=?koi8-r` marker and the `?b?` selector are compared after an ASCII-only lower-casing; a value whose non-ASCII letters Go folds, or whose invalid UTF-8 Go replaces by U+FFFD before slicing, can take a different branch in Go.
- HeaderDecoding.DecodeKoi8: the same ASCII-only lower-casing as `DecodeKoi8AsWritten`.
- HeaderDecoding.MimeSentence and HeaderDecoding.DecodeMimeSentence: they call the corrected `DecodeKoi8`, so a short marked value such as the Subject `=?koi8-r?=` goes on to the word path here, where Go panics (see "Findings").
- EmailParser.LeafBody: in the default branch Go also assigns nil to Content when decodeContent fails. The model keeps the Email's Content, which createEmailFromHeader leaves nil, so the two agree on every Email that ParseEmail builds.
- EmailParser.ParsedEmail: its own contract states only when an Email comes back. That the Email keeps the header fields is stated by `ParsedMessage`, which ParsedEmail returns for every message that reads.
- WalkProperties.RelatedKeepsTextRaw and WalkProperties.AlternativeDecodesText: proved for streams of text/plain parts. HTML leaves and mixed streams follow from the one-step lemmas (`RelatedHtmlStep`, `MixedTextStep` and the others), which are not folded over whole streams.

## Findings

| source | as written | input that shows it | evidently intended | confidence | as-written member | corrected member |
|---|---|---|---|---|---|---|
| parser.go:379-381 | `s[0:11]` and `s[11:len(s)-2]` are sliced once the lower-cased value starts with `=?koi8-r`, with no length check | a header value `=?koi8-r?=` (10 bytes); any marked value shorter than 13 bytes panics | a value too short to be a KOI8-R encoded word is declined, `(false, "")`, and the word path handles it | not executed | HeaderDecoding.DecodeKoi8AsWritten, HeaderDecoding.Koi8ShortValuePanics | HeaderDecoding.DecodeKoi8, HeaderDecoding.Koi8ShortValueFallsThrough |
