/** The values the decoder produces: the Email aggregate, its parts, and the decoder's errors. */
module EmailTypes {
  import opened Platform

  /** The errors the decoder reports (parser.go builds most of them with fmt.Errorf). */
  datatype Error =
    | MalformedMessage                                     // mail.ReadMessage failed
    | InvalidContentType(header: string)                   // "error parsing media type from content type header ..."
    | UnknownEncoding(encoding: string)                    // "unknown encoding: ..."
    | MalformedPayload(encoding: string)                   // the base64 or quoted-printable reader failed
    | MalformedMultipart                                   // NextPart returned an error other than io.EOF
    | UnreadablePart                                       // reading a part NextPart decodes failed
    | UnsupportedPartType(context: string, mediaType: string) // a leaf that the enclosing multipart cannot hold
    | MalformedAddress(value: string)                      // mail.ParseAddress(List) failed
    | MalformedDate(value: string)                         // no layout of time.Parse matched

  datatype Result<+T> = Ok(value: T) | Err(error: Error)

  /** A leaf of a multipart/mixed body kept as a file. */
  datatype Attachment = Attachment(filename: string, contentType: string, data: string)

  /** A leaf of a multipart/alternative or multipart/related body kept as an inline resource. */
  datatype EmbeddedFile = EmbeddedFile(cid: string, contentType: string, data: string)

  /** The parse result; `content` is None where Go leaves the io.Reader nil. */
  datatype Email = Email(
    header: Header,
    subject: string,
    sender: Option<Address>,
    from: seq<Address>,
    replyTo: seq<Address>,
    to: seq<Address>,
    cc: seq<Address>,
    bcc: seq<Address>,
    date: Time,
    messageId: string,
    inReplyTo: seq<string>,
    references: seq<string>,
    resentFrom: seq<Address>,
    resentSender: Option<Address>,
    resentTo: seq<Address>,
    resentDate: Time,
    resentCc: seq<Address>,
    resentBcc: seq<Address>,
    resentMessageId: string,
    contentType: string,
    content: Option<string>,
    htmlBody: string,
    textBody: string,
    attachments: seq<Attachment>,
    embeddedFiles: seq<EmbeddedFile>)

  /** The Email{} zero value that createEmailFromHeader starts from. */
  const EmptyEmail := Email(map[], "", None, [], [], [], [], [], ZeroTime, "", [], [],
                            [], None, [], ZeroTime, [], [], "", "", None, "", "", [], [])
}
