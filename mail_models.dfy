/** The records the mail service produces, and the mail-library values it reads,
    reduced to plain data. A fetched summary, a full message and a folder probe
    stand for what MailKit returns; nothing here talks to a server. */
module MailModels {
  import opened Wrappers

  // ---------------------------------------------------------------------------
  // Inputs: what the IMAP client hands to the service

  /** A message summary: the folder-local unique id, the optional date (an
      instant, compared as DateTimeOffset compares) and the reply flag. */
  datatype Summary = Summary(uniqueId: nat, date: Option<int>, isReply: bool)

  /** One entry of an address list: a single mailbox, or a group, which the
      service's `(MailboxAddress)` cast rejects. */
  datatype AddressEntry =
    | Mailbox(address: string, name: Option<string>)
    | Group(groupName: Option<string>)

  /** One entry of `MimeMessage.Attachments`: a leaf part with an optional file
      name, its MIME type and the length of its content stream (absent when the
      part has no stream), or a part that is not a `MimePart` (an attached message). */
  datatype AttachmentPart =
    | MimePart(fileName: Option<string>, mimeType: string, streamLength: Option<int>)
    | OtherPart

  /** The parts of a full message that the service reads. */
  datatype FullMessage = FullMessage(
    messageId: Option<string>,
    subject: Option<string>,
    textBody: Option<string>,
    htmlBody: Option<string>,
    date: int,
    inReplyTo: Option<string>,
    to: seq<AddressEntry>,
    from: seq<AddressEntry>,
    cc: seq<AddressEntry>,
    bcc: seq<AddressEntry>,
    attachments: seq<AttachmentPart>)

  /** What opening a folder read-only does: it succeeds and reports the message
      and unread counts, fails with an IMAP command error (caught and skipped),
      or fails with any other exception (not caught). */
  datatype OpenOutcome =
    | Opened(count: int, unread: int)
    | CommandRejected(reason: string)
    | OtherFailure

  /** A folder of the personal namespace, with the outcome of opening it. */
  datatype FolderRef = FolderRef(id: Option<string>, fullName: string, open: OpenOutcome)

  // ---------------------------------------------------------------------------
  // Outputs: the service's models

  datatype EmailAddress = EmailAddress(address: string, name: Option<string>)

  datatype EmailAttachment = EmailAttachment(
    fileName: string, filePath: string, size: int, contentType: string)

  datatype EmailFolder = EmailFolder(
    id: Option<string>, name: string, totalMessages: int, unreadMessages: int)

  /** The record built for each message, with the fields the service assigns. */
  datatype EmailMessage = EmailMessage(
    uniqueId: nat,
    messageId: Option<string>,
    toAddresses: seq<EmailAddress>,
    fromAddresses: seq<EmailAddress>,
    ccAddresses: seq<EmailAddress>,
    bccAddresses: seq<EmailAddress>,
    attachments: seq<EmailAttachment>,
    subject: Option<string>,
    body: Option<string>,
    date: int,
    isReply: bool,
    isForward: bool,
    originalMessageId: Option<string>)

  /** The exceptions that end a request. */
  datatype MailError =
    | IndexOutOfRange                 // a negative index into the sorted summaries
    | MessageNotFound(uniqueId: nat)  // the folder has no message with this id
    | InvalidCast                     // a group address met the mailbox cast
    | NullFileName                    // an attachment part without a file name
    | FolderFailed(fullName: string)  // opening a folder threw something other than a command error

  /** `new EmailMessage { ... }`: the constructor makes the five lists empty
      (and never null), the object initializer sets the scalar fields. */
  function NewEmailMessage(
    uniqueId: nat, messageId: Option<string>, subject: Option<string>, body: Option<string>,
    date: int, isReply: bool, isForward: bool, originalMessageId: Option<string>): (m: EmailMessage)
    ensures m.toAddresses == [] && m.fromAddresses == [] && m.ccAddresses == []
    ensures m.bccAddresses == [] && m.attachments == []
    ensures m.uniqueId == uniqueId && m.messageId == messageId && m.subject == subject
    ensures m.body == body && m.date == date && m.isReply == isReply
    ensures m.isForward == isForward && m.originalMessageId == originalMessageId
  {
    EmailMessage(uniqueId, messageId, [], [], [], [], [], subject, body, date,
                 isReply, isForward, originalMessageId)
  }
}
