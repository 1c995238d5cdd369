/** The pure rules by which the mail service turns a summary and its full
    message into an `EmailMessage`: body fallback, forward detection, the
    lower-cased In-Reply-To, address mapping and attachment records. */
module MessageRules {
  import opened Wrappers
  import opened Text
  import opened MailModels

  /** `string.IsNullOrEmpty`. */
  predicate IsNullOrEmpty(s: Option<string>)
  {
    s.None? || s.value == ""
  }

  // ---------------------------------------------------------------------------
  // Body

  /** The text body unless it is null or empty, otherwise the HTML body. */
  function BodyOf(textBody: Option<string>, htmlBody: Option<string>): (body: Option<string>)
    ensures body == textBody || body == htmlBody
    ensures !IsNullOrEmpty(textBody) ==> body == textBody
    ensures IsNullOrEmpty(textBody) ==> body == htmlBody
    ensures IsNullOrEmpty(body) <==> IsNullOrEmpty(textBody) && IsNullOrEmpty(htmlBody)
  {
    if IsNullOrEmpty(textBody) then htmlBody else textBody
  }

  // ---------------------------------------------------------------------------
  // Forward detection

  /** Character-level reading of "starts with fw: or fwd:, ignoring case". */
  predicate HasForwardPrefix(s: string)
  {
    && |s| >= 3
    && LowerChar(s[0]) == 'f' && LowerChar(s[1]) == 'w'
    && (s[2] == ':' || (|s| >= 4 && LowerChar(s[2]) == 'd' && s[3] == ':'))
  }

  /** Only ':' lower-cases to ':'. */
  lemma LowerCharColon(c: char)
    ensures LowerChar(c) == ':' <==> c == ':'
  {
  }

  /** The subject, lower-cased, starts with "fw:" or with "fwd:"; a null
      subject is not a forward. */
  function IsForward(subject: Option<string>): (r: bool)
    ensures r <==> subject.Some? && HasForwardPrefix(subject.value)
  {
    if subject.None? then false
    else
      var lower := ToLowerAscii(subject.value);
      var r := StartsWith(lower, "fw:") || StartsWith(lower, "fwd:");
      ForwardPrefixByCharacters(subject.value);
      r
  }

  lemma ForwardPrefixByCharacters(s: string)
    ensures StartsWith(ToLowerAscii(s), "fw:") || StartsWith(ToLowerAscii(s), "fwd:")
            <==> HasForwardPrefix(s)
  {
    var lower := ToLowerAscii(s);
    if |s| >= 3 {
      LowerCharColon(s[2]);
      assert StartsWith(lower, "fw:") <==> lower[0] == 'f' && lower[1] == 'w' && lower[2] == ':' by {
        assert lower[..3] == [lower[0], lower[1], lower[2]];
      }
      if |s| >= 4 {
        LowerCharColon(s[3]);
        assert StartsWith(lower, "fwd:")
               <==> lower[0] == 'f' && lower[1] == 'w' && lower[2] == 'd' && lower[3] == ':' by {
          assert lower[..4] == [lower[0], lower[1], lower[2], lower[3]];
        }
      }
    }
  }

  /** The subjects used as examples of the rule. */
  lemma ForwardExamples()
    ensures IsForward(Some("FW: hi")) && IsForward(Some("Fwd: re: hi")) && IsForward(Some("fw:hi"))
    ensures !IsForward(Some("forward planning")) && !IsForward(None)
  {
    assert HasForwardPrefix("FW: hi");
    assert HasForwardPrefix("Fwd: re: hi");
    assert HasForwardPrefix("fw:hi");
    assert !HasForwardPrefix("forward planning");
  }

  // ---------------------------------------------------------------------------
  // In-Reply-To

  /** The In-Reply-To header lower-cased, or null when the header is absent. */
  function OriginalMessageId(inReplyTo: Option<string>): (r: Option<string>)
    ensures r.Some? <==> inReplyTo.Some?
    ensures r.Some? ==> |r.value| == |inReplyTo.value|
    ensures r.Some? ==> forall i :: 0 <= i < |r.value| ==> r.value[i] == LowerChar(inReplyTo.value[i])
    ensures r.Some? ==> forall i :: 0 <= i < |r.value| ==> !IsUpperAscii(r.value[i])
  {
    match inReplyTo
    case None => None
    case Some(header) => Some(ToLowerAscii(header))
  }

  // ---------------------------------------------------------------------------
  // Addresses

  /** `out` holds one `{Address, Name}` per entry, in order, and every entry is a mailbox. */
  predicate MapsEntries(out: seq<EmailAddress>, entries: seq<AddressEntry>)
  {
    && |out| == |entries|
    && forall i :: 0 <= i < |entries| ==>
         entries[i].Mailbox? && out[i] == EmailAddress(entries[i].address, entries[i].name)
  }

  predicate AllMailboxes(entries: seq<AddressEntry>)
  {
    forall i :: 0 <= i < |entries| ==> entries[i].Mailbox?
  }

  /** The `(MailboxAddress)` cast followed by `new EmailAddress { Address, Name }`. */
  function ToEmailAddress(entry: AddressEntry): (r: Result<EmailAddress, MailError>)
    ensures r.Success? <==> entry.Mailbox?
    ensures r.Success? ==> r.value == EmailAddress(entry.address, entry.name)
    ensures r.Failure? ==> r.error == InvalidCast
  {
    match entry
    case Mailbox(address, name) => Success(EmailAddress(address, name))
    case Group(_) => Failure(InvalidCast)
  }

  /** The projection of a whole address list; it fails on the first group entry. */
  function MapAddresses(entries: seq<AddressEntry>): Result<seq<EmailAddress>, MailError>
  {
    if entries == [] then Success([])
    else
      var init :- MapAddresses(entries[..|entries| - 1]);
      var last :- ToEmailAddress(entries[|entries| - 1]);
      Success(init + [last])
  }

  /** The projection succeeds exactly when every entry is a mailbox, and then
      keeps each one's address and name, in order; otherwise the cast fails. */
  lemma {:induction false} MapAddressesSpec(entries: seq<AddressEntry>)
    ensures MapAddresses(entries).Success? <==> AllMailboxes(entries)
    ensures MapAddresses(entries).Success? ==> MapsEntries(MapAddresses(entries).value, entries)
    ensures MapAddresses(entries).Failure? ==> MapAddresses(entries).error == InvalidCast
  {
    if entries != [] {
      var init := entries[..|entries| - 1];
      MapAddressesSpec(init);
      assert forall i :: 0 <= i < |init| ==> init[i] == entries[i];
    }
  }

  // ---------------------------------------------------------------------------
  // Attachments

  const AttachmentsRoot: string := "attachments"

  /** `Path.Combine(dir, name)` with Unix path rules: an empty name gives the
      directory, a rooted name replaces it, otherwise the two are joined by '/'. */
  function CombinePath(dir: string, name: string): (path: string)
    ensures name != "" && name[0] != '/' && dir != "" && dir[|dir| - 1] != '/' ==>
              path == dir + "/" + name
  {
    if name == "" then dir
    else if name[0] == '/' then name
    else if dir == "" then name
    else if dir[|dir| - 1] == '/' then dir + name
    else dir + "/" + name
  }

  /** The parts the service turns into attachment records: those that are `MimePart`s, in order. */
  function MimeParts(parts: seq<AttachmentPart>): (r: seq<AttachmentPart>)
    ensures |r| <= |parts|
    ensures forall k :: 0 <= k < |r| ==> r[k].MimePart?
    ensures forall p :: p in r ==> p in parts
  {
    if parts == [] then []
    else MimeParts(parts[..|parts| - 1])
         + (if parts[|parts| - 1].MimePart? then [parts[|parts| - 1]] else [])
  }

  /** Every `MimePart` is selected, and nothing else. */
  lemma {:induction false} MimePartsKeepsExactly(parts: seq<AttachmentPart>)
    ensures forall p :: p in MimeParts(parts) <==> p in parts && p.MimePart?
  {
    if parts != [] {
      var init := parts[..|parts| - 1];
      MimePartsKeepsExactly(init);
      assert parts == init + [parts[|parts| - 1]];
    }
  }

  /** The selection keeps order: selecting from two runs of parts one after the
      other is selecting from each in turn. */
  lemma {:induction false} MimePartsConcat(a: seq<AttachmentPart>, b: seq<AttachmentPart>)
    ensures MimeParts(a + b) == MimeParts(a) + MimeParts(b)
  {
    if b == [] {
      assert a + b == a;
    } else {
      var b' := b[..|b| - 1];
      assert (a + b)[..|a + b| - 1] == a + b';
      assert (a + b)[|a + b| - 1] == b[|b| - 1];
      MimePartsConcat(a, b');
      var tail := if b[|b| - 1].MimePart? then [b[|b| - 1]] else [];
      assert MimeParts(a) + (MimeParts(b') + tail) == (MimeParts(a) + MimeParts(b')) + tail;
    }
  }

  predicate AllNamed(parts: seq<AttachmentPart>)
  {
    forall k :: 0 <= k < |parts| && parts[k].MimePart? ==> parts[k].fileName.Some?
  }

  /** The record written for one `MimePart`; its size is the content stream's
      length, or 0 when there is no stream. */
  function AttachmentOf(part: AttachmentPart): (r: Result<EmailAttachment, MailError>)
    requires part.MimePart?
    ensures r.Success? <==> part.fileName.Some?
    ensures r.Failure? ==> r.error == NullFileName
    ensures r.Success? ==>
              && r.value.fileName == part.fileName.value
              && r.value.filePath == CombinePath(AttachmentsRoot, part.fileName.value)
              && r.value.contentType == part.mimeType
  {
    match part.fileName
    case None => Failure(NullFileName)
    case Some(name) =>
      var size := if part.streamLength.Some? then part.streamLength.value else 0;
      Success(EmailAttachment(name, CombinePath(AttachmentsRoot, name), size, part.mimeType))
  }

  /** `out` holds one record per `MimePart` of `parts`, in order. */
  predicate MapsParts(out: seq<EmailAttachment>, parts: seq<AttachmentPart>)
  {
    var mime := MimeParts(parts);
    && |out| == |mime|
    && forall k :: 0 <= k < |out| ==> AttachmentOf(mime[k]) == Success(out[k])
  }

  /** The attachment records of a message: the non-`MimePart` entries are
      skipped, and a part without a file name fails the message. */
  function MapAttachments(parts: seq<AttachmentPart>): Result<seq<EmailAttachment>, MailError>
  {
    if parts == [] then Success([])
    else
      var init :- MapAttachments(parts[..|parts| - 1]);
      var last := parts[|parts| - 1];
      if last.MimePart? then
        var a :- AttachmentOf(last);
        Success(init + [a])
      else Success(init)
  }

  /** The attachment list is built exactly when every `MimePart` is named, and then
      holds one record per `MimePart`, in order; otherwise the name is missing. */
  lemma {:induction false} MapAttachmentsSpec(parts: seq<AttachmentPart>)
    ensures MapAttachments(parts).Success? <==> AllNamed(parts)
    ensures MapAttachments(parts).Success? ==> MapsParts(MapAttachments(parts).value, parts)
    ensures MapAttachments(parts).Failure? ==> MapAttachments(parts).error == NullFileName
  {
    if parts != [] {
      var init := parts[..|parts| - 1];
      MapAttachmentsSpec(init);
      assert forall k :: 0 <= k < |init| ==> init[k] == parts[k];
    }
  }

  // ---------------------------------------------------------------------------
  // The whole record

  /** The `EmailMessage` built from a summary and its full message. */
  function Normalize(summary: Summary, item: FullMessage): Result<EmailMessage, MailError>
  {
    var m := NewEmailMessage(
      summary.uniqueId, item.messageId, item.subject, BodyOf(item.textBody, item.htmlBody),
      item.date, summary.isReply, IsForward(item.subject), OriginalMessageId(item.inReplyTo));
    var to :- MapAddresses(item.to);
    var from :- MapAddresses(item.from);
    var cc :- MapAddresses(item.cc);
    var bcc :- MapAddresses(item.bcc);
    var attachments :- MapAttachments(item.attachments);
    Success(m.(toAddresses := to, fromAddresses := from, ccAddresses := cc,
               bccAddresses := bcc, attachments := attachments))
  }

  /** What a normalised record holds, field by field, and when normalisation fails. */
  lemma NormalizeFields(summary: Summary, item: FullMessage)
    ensures Normalize(summary, item).Success? <==>
              && AllMailboxes(item.to) && AllMailboxes(item.from)
              && AllMailboxes(item.cc) && AllMailboxes(item.bcc)
              && AllNamed(item.attachments)
    ensures Normalize(summary, item).Success? ==>
              var e := Normalize(summary, item).value;
              && e.uniqueId == summary.uniqueId
              && e.isReply == summary.isReply
              && e.messageId == item.messageId
              && e.subject == item.subject
              && e.date == item.date
              && (!IsNullOrEmpty(item.textBody) ==> e.body == item.textBody)
              && (IsNullOrEmpty(item.textBody) ==> e.body == item.htmlBody)
              && (e.isForward <==> item.subject.Some? && HasForwardPrefix(item.subject.value))
              && (e.originalMessageId.Some? <==> item.inReplyTo.Some?)
              && (e.originalMessageId.Some? ==> e.originalMessageId.value == ToLowerAscii(item.inReplyTo.value))
              && MapsEntries(e.toAddresses, item.to)
              && MapsEntries(e.fromAddresses, item.from)
              && MapsEntries(e.ccAddresses, item.cc)
              && MapsEntries(e.bccAddresses, item.bcc)
              && MapsParts(e.attachments, item.attachments)
  {
    MapAddressesSpec(item.to);
    MapAddressesSpec(item.from);
    MapAddressesSpec(item.cc);
    MapAddressesSpec(item.bcc);
    MapAttachmentsSpec(item.attachments);
  }
}
