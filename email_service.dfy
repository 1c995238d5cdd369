/** The mail service: the paged query over the "All Mail" folder, the whole-inbox
    listing, the construction of each `EmailMessage` and the folder-details listing.
    The IMAP client's results are parameters: the fetched summaries, the folder's
    full messages by unique id, the list of folders with the outcome of opening each. */
module EmailService {
  import opened Wrappers
  import opened Text
  import opened MailModels
  import opened MessageRules
  import opened SummaryOrder

  function Min(a: int, b: int): int { if a <= b then a else b }

  function Max(a: int, b: int): int { if a >= b then a else b }

  /** The range of C# `int`. */
  predicate IsInt32(x: int) { -0x8000_0000 <= x < 0x8000_0000 }

  // ---------------------------------------------------------------------------
  // Page window

  function StartIndex(pageNumber: int, pageSize: int): int
  {
    (pageNumber - 1) * pageSize
  }

  function EndIndex(startIndex: int, pageSize: int, count: int): int
  {
    Min(startIndex + pageSize, count)
  }

  /** The summaries of page `pageNumber`, or none when the page starts past the end. */
  function PageSlice(sorted: seq<Summary>, pageNumber: nat, pageSize: nat): (page: seq<Summary>)
    requires pageNumber >= 1
  {
    var startIndex := StartIndex(pageNumber, pageSize);
    var endIndex := EndIndex(startIndex, pageSize, |sorted|);
    assert 0 <= startIndex by { MulNonNegative(pageNumber - 1, pageSize); }
    if startIndex < |sorted| then sorted[startIndex..endIndex] else []
  }

  lemma MulNonNegative(a: nat, b: nat)
    ensures a * b >= 0
  {
  }

  /** Pages 1..count of one page size, in order. */
  function FirstPages(sorted: seq<Summary>, count: nat, pageSize: nat): seq<Summary>
  {
    if count == 0 then [] else FirstPages(sorted, count - 1, pageSize) + PageSlice(sorted, count, pageSize)
  }

  /** Consecutive pages are adjacent: page p + 1 starts exactly pageSize after page p,
      and page p ends where page p + 1 starts unless the list ends first. */
  lemma ConsecutivePagesAdjoin(pageNumber: int, pageSize: int, count: nat)
    requires pageNumber >= 1 && pageSize >= 1
    ensures StartIndex(pageNumber + 1, pageSize) == StartIndex(pageNumber, pageSize) + pageSize
    ensures EndIndex(StartIndex(pageNumber, pageSize), pageSize, count) <= StartIndex(pageNumber + 1, pageSize)
    ensures StartIndex(pageNumber + 1, pageSize) <= count ==>
              EndIndex(StartIndex(pageNumber, pageSize), pageSize, count) == StartIndex(pageNumber + 1, pageSize)
  {
    assert pageNumber * pageSize == (pageNumber - 1) * pageSize + pageSize;
  }

  /** Pages 1..count, laid end to end, are exactly the first count * pageSize summaries
      (or all of them): no summary is skipped and none appears twice. */
  lemma {:induction false} FirstPagesCoverPrefix(sorted: seq<Summary>, count: nat, pageSize: nat)
    requires pageSize >= 1
    ensures FirstPages(sorted, count, pageSize) == sorted[..Min(count * pageSize, |sorted|)]
  {
    if count > 0 {
      FirstPagesCoverPrefix(sorted, count - 1, pageSize);
      var before := Min((count - 1) * pageSize, |sorted|);
      var startIndex := StartIndex(count, pageSize);
      assert startIndex == (count - 1) * pageSize;
      assert count * pageSize == startIndex + pageSize;
      MulNonNegative(count - 1, pageSize);
      if startIndex < |sorted| {
        assert before == startIndex;
        assert sorted[..before] + sorted[startIndex..EndIndex(startIndex, pageSize, |sorted|)]
               == sorted[..Min(count * pageSize, |sorted|)];
      } else {
        assert before == |sorted|;
      }
    }
  }

  // ---------------------------------------------------------------------------
  // Building one record

  /** The `AddRange` of cast-and-projected addresses: appends one address per
      entry, or throws at the first group entry. */
  method AddAddresses(list: seq<EmailAddress>, entries: seq<AddressEntry>)
    returns (r: Result<seq<EmailAddress>, MailError>)
    ensures r.Success? <==> AllMailboxes(entries)
    ensures r.Success? ==> MapAddresses(entries).Success? && r.value == list + MapAddresses(entries).value
    ensures r.Failure? ==> r.error == InvalidCast && MapAddresses(entries) == Failure(InvalidCast)
  {
    MapAddressesSpec(entries);
    var result := list;
    for i := 0 to |entries|
      invariant MapAddresses(entries[..i]).Success?
      invariant result == list + MapAddresses(entries[..i]).value
    {
      assert entries[..i + 1][..i] == entries[..i];
      match entries[i]
      case Group(_) =>
        return Failure(InvalidCast);
      case Mailbox(address, name) =>
        result := result + [EmailAddress(address, name)];
    }
    assert entries[..|entries|] == entries;
    return Success(result);
  }

  /** The `foreach` over `item.Attachments`: each `MimePart` adds one record at
      `Path.Combine("attachments", FileName)`, other parts are skipped, and a
      part without a file name throws. */
  method AddAttachments(list: seq<EmailAttachment>, parts: seq<AttachmentPart>)
    returns (r: Result<seq<EmailAttachment>, MailError>)
    ensures r.Success? <==> AllNamed(parts)
    ensures r.Success? ==> MapAttachments(parts).Success? && r.value == list + MapAttachments(parts).value
    ensures r.Failure? ==> r.error == NullFileName && MapAttachments(parts) == Failure(NullFileName)
  {
    MapAttachmentsSpec(parts);
    var attachments := list;
    for k := 0 to |parts|
      invariant MapAttachments(parts[..k]).Success?
      invariant attachments == list + MapAttachments(parts[..k]).value
    {
      assert parts[..k + 1][..k] == parts[..k];
      var attachment := parts[k];
      if attachment.MimePart? {
        var fileName := attachment.fileName;
        if fileName.None? {
          // Path.Combine("attachments", null) throws
          return Failure(NullFileName);
        }
        var filePath := CombinePath(AttachmentsRoot, fileName.value);
        var size := if attachment.streamLength.Some? then attachment.streamLength.value else 0;
        attachments := attachments + [EmailAttachment(fileName.value, filePath, size, attachment.mimeType)];
      }
    }
    assert parts[..|parts|] == parts;
    return Success(attachments);
  }

  /** The record for one summary and its full message: the scalar fields, the four
      address lists filled by `AddRange`, then one attachment per `MimePart`. */
  method BuildEmailMessage(summary: Summary, item: FullMessage) returns (r: Result<EmailMessage, MailError>)
    ensures r == Normalize(summary, item)
  {
    var emailMessage := NewEmailMessage(
      summary.uniqueId, item.messageId, item.subject, BodyOf(item.textBody, item.htmlBody),
      item.date, summary.isReply, IsForward(item.subject), OriginalMessageId(item.inReplyTo));
    var to :- AddAddresses(emailMessage.toAddresses, item.to);
    var from :- AddAddresses(emailMessage.fromAddresses, item.from);
    var cc :- AddAddresses(emailMessage.ccAddresses, item.cc);
    var bcc :- AddAddresses(emailMessage.bccAddresses, item.bcc);
    var attachments :- AddAttachments(emailMessage.attachments, item.attachments);
    assert to == MapAddresses(item.to).value && from == MapAddresses(item.from).value;
    assert cc == MapAddresses(item.cc).value && bcc == MapAddresses(item.bcc).value;
    assert attachments == MapAttachments(item.attachments).value;
    emailMessage := emailMessage.(toAddresses := to, fromAddresses := from, ccAddresses := cc,
                                  bccAddresses := bcc, attachments := attachments);
    return Success(emailMessage);
  }

  // ---------------------------------------------------------------------------
  // The paged query

  /** The summary's message exists in the folder and its record can be built. */
  predicate Fetchable(summary: Summary, folder: map<nat, FullMessage>)
  {
    FetchRecord(summary, folder).Success?
  }

  /** `GetMessageAsync(summary.UniqueId)` followed by building the record. */
  function FetchRecord(summary: Summary, folder: map<nat, FullMessage>): Result<EmailMessage, MailError>
  {
    if summary.uniqueId !in folder then Failure(MessageNotFound(summary.uniqueId))
    else Normalize(summary, folder[summary.uniqueId])
  }

  /** The fetch of one summary's message, then the record built from it. */
  method FetchAndBuild(summary: Summary, folder: map<nat, FullMessage>) returns (r: Result<EmailMessage, MailError>)
    ensures r == FetchRecord(summary, folder)
  {
    if summary.uniqueId !in folder {
      return Failure(MessageNotFound(summary.uniqueId));
    }
    var item := folder[summary.uniqueId];
    r := BuildEmailMessage(summary, item);
  }

  /** The records of a run of summaries, fetched and built in order; the first
      summary that cannot be fetched or built ends the run with its error. */
  function NormalizeEach(window: seq<Summary>, folder: map<nat, FullMessage>)
    : Result<seq<EmailMessage>, MailError>
  {
    if window == [] then Success([])
    else
      var init :- NormalizeEach(window[..|window| - 1], folder);
      var m :- FetchRecord(window[|window| - 1], folder);
      Success(init + [m])
  }

  /** The run succeeds exactly when every summary is fetchable, and then holds
      one record per summary, in order. */
  lemma {:induction false} NormalizeEachContents(window: seq<Summary>, folder: map<nat, FullMessage>)
    ensures NormalizeEach(window, folder).Success? <==> forall k :: 0 <= k < |window| ==> Fetchable(window[k], folder)
    ensures NormalizeEach(window, folder).Success? ==> |NormalizeEach(window, folder).value| == |window|
    ensures NormalizeEach(window, folder).Success? ==> forall k :: 0 <= k < |window| ==>
              Success(NormalizeEach(window, folder).value[k]) == FetchRecord(window[k], folder)
  {
    if window != [] {
      var init := window[..|window| - 1];
      NormalizeEachContents(init, folder);
      assert forall k :: 0 <= k < |init| ==> init[k] == window[k];
    }
  }

  /** Once a prefix of the run fails, the whole run fails with the same error. */
  lemma {:induction false} NormalizeEachKeepsFirstFailure(window: seq<Summary>, folder: map<nat, FullMessage>, j: nat)
    requires j <= |window| && NormalizeEach(window[..j], folder).Failure?
    ensures NormalizeEach(window, folder) == NormalizeEach(window[..j], folder)
  {
    if j < |window| {
      var init := window[..|window| - 1];
      assert init[..j] == window[..j];
      NormalizeEachKeepsFirstFailure(init, folder, j);
    } else {
      assert window[..j] == window;
    }
  }

  /** One more summary at the end of a run that has succeeded so far. */
  lemma NormalizeEachSnoc(w: seq<Summary>, x: Summary, folder: map<nat, FullMessage>)
    requires NormalizeEach(w, folder).Success?
    ensures FetchRecord(x, folder).Failure? ==> NormalizeEach(w + [x], folder) == Failure(FetchRecord(x, folder).error)
    ensures FetchRecord(x, folder).Success? ==>
              NormalizeEach(w + [x], folder) == Success(NormalizeEach(w, folder).value + [FetchRecord(x, folder).value])
  {
    assert (w + [x])[..|w + [x]| - 1] == w;
    assert (w + [x])[|w + [x]| - 1] == x;
  }

  /** A window whose first i + 1 summaries already fail, fails with that error. */
  lemma WindowFailsEarly(sorted: seq<Summary>, folder: map<nat, FullMessage>, startIndex: nat, i: nat, endIndex: nat)
    requires startIndex <= i < endIndex <= |sorted|
    requires NormalizeEach(sorted[startIndex..i + 1], folder).Failure?
    ensures NormalizeEach(sorted[startIndex..endIndex], folder) == NormalizeEach(sorted[startIndex..i + 1], folder)
  {
    assert sorted[startIndex..endIndex][..i + 1 - startIndex] == sorted[startIndex..i + 1];
    NormalizeEachKeepsFirstFailure(sorted[startIndex..endIndex], folder, i + 1 - startIndex);
  }

  /** The page of an already sorted list that starts at `startIndex`. */
  function PageFromSorted(sorted: seq<Summary>, folder: map<nat, FullMessage>, startIndex: int, pageSize: int)
    : Result<seq<EmailMessage>, MailError>
  {
    var endIndex := EndIndex(startIndex, pageSize, |sorted|);
    if startIndex < |sorted| && startIndex < endIndex then
      if startIndex < 0 then Failure(IndexOutOfRange)
      else NormalizeEach(sorted[startIndex..endIndex], folder)
    else Success([])
  }

  /** With the window's end already clipped to the list, the page is that window. */
  lemma PageOfWindow(sorted: seq<Summary>, folder: map<nat, FullMessage>, startIndex: int, endIndex: int)
    requires endIndex <= |sorted|
    ensures PageFromSorted(sorted, folder, startIndex, endIndex - startIndex)
            == if startIndex < |sorted| && startIndex < endIndex then
                 if startIndex < 0 then Failure(IndexOutOfRange)
                 else NormalizeEach(sorted[startIndex..endIndex], folder)
               else Success([])
  {
    assert EndIndex(startIndex, endIndex - startIndex, |sorted|) == endIndex;
  }

  /** What `GetEmails(pageNumber, pageSize)` returns for one "All Mail" folder. */
  function EmailPage(summaries: seq<Summary>, folder: map<nat, FullMessage>, pageNumber: int, pageSize: int)
    : Result<seq<EmailMessage>, MailError>
  {
    PageFromSorted(SortedByDate(summaries), folder, StartIndex(pageNumber, pageSize), pageSize)
  }

  /** The paged query: keep dated summaries, sort newest first, walk the window
      [startIndex, endIndex), fetching and building one record per summary. */
  method GetEmails(summaries: seq<Summary>, folder: map<nat, FullMessage>, pageNumber: int, pageSize: int)
    returns (r: Result<seq<EmailMessage>, MailError>)
    requires IsInt32(pageNumber) && IsInt32(pageSize) && IsInt32(pageNumber - 1)
    requires IsInt32(StartIndex(pageNumber, pageSize)) && IsInt32(StartIndex(pageNumber, pageSize) + pageSize)
    ensures r == EmailPage(summaries, folder, pageNumber, pageSize)
  {
    var sortedSummaries := SortedByDate(summaries);
    var startIndex := (pageNumber - 1) * pageSize;
    var endIndex := Min(startIndex + pageSize, |sortedSummaries|);
    r := WalkWindow(sortedSummaries, folder, startIndex, endIndex);
  }

  /** The page loop behind its guard that the first index lies before the end
      of the sorted list. */
  method WalkWindow(sortedSummaries: seq<Summary>, folder: map<nat, FullMessage>, startIndex: int, endIndex: int)
    returns (r: Result<seq<EmailMessage>, MailError>)
    requires endIndex <= |sortedSummaries|
    ensures r == PageFromSorted(sortedSummaries, folder, startIndex, endIndex - startIndex)
  {
    PageOfWindow(sortedSummaries, folder, startIndex, endIndex);
    if startIndex < |sortedSummaries| && startIndex < endIndex {
      if startIndex < 0 {
        // the loop's first `sortedSummaries[i]`: List<T> indexer with a negative index
        return Failure(IndexOutOfRange);
      }
      r := CollectWindow(sortedSummaries, folder, startIndex, endIndex);
    } else {
      r := Success([]);
    }
  }

  lemma SliceSnoc<T>(s: seq<T>, a: nat, i: nat)
    requires a <= i < |s|
    ensures s[a..i + 1] == s[a..i] + [s[i]]
  {
  }

  /** The counting loop from startIndex up to endIndex of the page walk: fetch
      and build each summary's record in order, stopping at the first error. */
  method CollectWindow(sortedSummaries: seq<Summary>, folder: map<nat, FullMessage>, startIndex: nat, endIndex: nat)
    returns (r: Result<seq<EmailMessage>, MailError>)
    requires startIndex <= endIndex <= |sortedSummaries|
    ensures r == NormalizeEach(sortedSummaries[startIndex..endIndex], folder)
  {
    var messages: seq<EmailMessage> := [];
    var i := startIndex;
    while i < endIndex
      invariant startIndex <= i <= endIndex
      invariant NormalizeEach(sortedSummaries[startIndex..i], folder) == Success(messages)
    {
      var built := FetchAt(sortedSummaries, folder, startIndex, i, endIndex);
      if built.Failure? {
        return Failure(built.error);
      }
      messages := messages + [built.value];
      i := i + 1;
    }
    return Success(messages);
  }

  /** One pass of the page loop: the record of `sortedSummaries[i]`. It extends the
      walk so far by one record, or its error is the error of the whole window. */
  method FetchAt(sortedSummaries: seq<Summary>, folder: map<nat, FullMessage>, startIndex: nat, i: nat, endIndex: nat)
    returns (built: Result<EmailMessage, MailError>)
    requires startIndex <= i < endIndex <= |sortedSummaries|
    requires NormalizeEach(sortedSummaries[startIndex..i], folder).Success?
    ensures built.Success? ==>
              NormalizeEach(sortedSummaries[startIndex..i + 1], folder)
              == Success(NormalizeEach(sortedSummaries[startIndex..i], folder).value + [built.value])
    ensures built.Failure? ==>
              NormalizeEach(sortedSummaries[startIndex..endIndex], folder) == Failure(built.error)
  {
    var summary := sortedSummaries[i];
    SliceSnoc(sortedSummaries, startIndex, i);
    NormalizeEachSnoc(sortedSummaries[startIndex..i], summary, folder);
    built := FetchAndBuild(summary, folder);
    if built.Failure? {
      WindowFailsEarly(sortedSummaries, folder, startIndex, i, endIndex);
    }
  }

  lemma MulNonNegativeStart(pageNumber: int, pageSize: int)
    requires pageNumber >= 1 && pageSize >= 1
    ensures StartIndex(pageNumber, pageSize) >= 0
  {
    MulNonNegative(pageNumber - 1, pageSize);
  }

  /** A page of a sorted list, from a non-negative start, holds
      max(0, min(start + pageSize, n) - start) records, never more than pageSize,
      the k-th built from the (start + k)-th summary; it fails exactly when one
      of those summaries cannot be fetched or built. */
  lemma PageFromSortedContents(sorted: seq<Summary>, folder: map<nat, FullMessage>, startIndex: int, pageSize: int)
    requires startIndex >= 0 && pageSize >= 1
    ensures var r := PageFromSorted(sorted, folder, startIndex, pageSize);
            && (r.Success? <==> forall j :: startIndex <= j < Min(startIndex + pageSize, |sorted|) ==>
                                  Fetchable(sorted[j], folder))
            && (r.Success? ==>
                  && |r.value| == Max(0, Min(startIndex + pageSize, |sorted|) - startIndex)
                  && |r.value| <= pageSize
                  && forall k :: 0 <= k < |r.value| ==>
                       && r.value[k].uniqueId == sorted[startIndex + k].uniqueId
                       && Success(r.value[k]) == FetchRecord(sorted[startIndex + k], folder))
  {
    var endIndex := EndIndex(startIndex, pageSize, |sorted|);
    if startIndex < |sorted| {
      var window := sorted[startIndex..endIndex];
      var r := NormalizeEach(window, folder);
      NormalizeEachContents(window, folder);
      assert forall k :: 0 <= k < |window| ==> window[k] == sorted[startIndex + k];
      assert r.Success? <==> forall j :: startIndex <= j < endIndex ==> Fetchable(sorted[j], folder) by {
        if forall j :: startIndex <= j < endIndex ==> Fetchable(sorted[j], folder) {
          forall k | 0 <= k < |window| ensures Fetchable(window[k], folder) {
            assert Fetchable(sorted[startIndex + k], folder);
          }
        }
        if r.Success? {
          forall j | startIndex <= j < endIndex ensures Fetchable(sorted[j], folder) {
            assert Fetchable(window[j - startIndex], folder);
          }
        }
      }
      if r.Success? {
        forall k | 0 <= k < |r.value|
          ensures r.value[k].uniqueId == sorted[startIndex + k].uniqueId
        {
          NormalizeFields(window[k], folder[window[k].uniqueId]);
        }
      }
    }
  }

  /** With a positive page number and size, the page is the window above of the
      newest-first list of dated summaries. */
  lemma PageContents(summaries: seq<Summary>, folder: map<nat, FullMessage>, pageNumber: int, pageSize: int)
    requires pageNumber >= 1 && pageSize >= 1
    ensures var sorted := SortedByDate(summaries);
            var startIndex := StartIndex(pageNumber, pageSize);
            var r := EmailPage(summaries, folder, pageNumber, pageSize);
            && 0 <= startIndex
            && (r.Success? <==> forall j :: startIndex <= j < Min(startIndex + pageSize, |sorted|) ==>
                                  Fetchable(sorted[j], folder))
            && (r.Success? ==>
                  && |r.value| == Max(0, Min(startIndex + pageSize, |sorted|) - startIndex)
                  && |r.value| <= pageSize
                  && forall k :: 0 <= k < |r.value| ==>
                       && r.value[k].uniqueId == sorted[startIndex + k].uniqueId
                       && Success(r.value[k]) == FetchRecord(sorted[startIndex + k], folder))
  {
    MulNonNegativeStart(pageNumber, pageSize);
    PageFromSortedContents(SortedByDate(summaries), folder, StartIndex(pageNumber, pageSize), pageSize);
  }

  /** A page that starts at or past the number of dated summaries is empty, not an error. */
  lemma PagePastEndIsEmpty(summaries: seq<Summary>, folder: map<nat, FullMessage>, pageNumber: int, pageSize: int)
    requires StartIndex(pageNumber, pageSize) >= |SortedByDate(summaries)|
    ensures EmailPage(summaries, folder, pageNumber, pageSize) == Success([])
  {
  }

  lemma MulAtLeast(a: int, b: int)
    requires a >= 1 && b >= 1
    ensures a * b >= b
  {
    assert a * b == (a - 1) * b + b;
    MulNonNegative(a - 1, b);
  }

  /** A page number of zero or less, with a positive page size, makes the first
      index negative: the query fails instead of returning a page. */
  lemma NonPositivePageFails(summaries: seq<Summary>, folder: map<nat, FullMessage>, pageNumber: int, pageSize: int)
    requires pageNumber <= 0 && pageSize >= 1
    ensures EmailPage(summaries, folder, pageNumber, pageSize) == Failure(IndexOutOfRange)
  {
    var startIndex := StartIndex(pageNumber, pageSize);
    MulAtLeast(1 - pageNumber, pageSize);
    assert startIndex == -((1 - pageNumber) * pageSize);
    assert startIndex + pageSize <= 0;
  }

  // ---------------------------------------------------------------------------
  // The whole-inbox listing

  /** `GetEmails()`: one record per inbox message, in folder order, with the
      message id, subject, date and the body rule; every list stays empty and
      the fields this listing never sets keep their defaults. */
  method GetInboxEmails(inbox: seq<FullMessage>) returns (messages: seq<EmailMessage>)
    ensures |messages| == |inbox|
    ensures forall i :: 0 <= i < |inbox| ==>
              && messages[i].messageId == inbox[i].messageId
              && messages[i].subject == inbox[i].subject
              && messages[i].body == BodyOf(inbox[i].textBody, inbox[i].htmlBody)
              && messages[i].date == inbox[i].date
              && messages[i].toAddresses == [] && messages[i].fromAddresses == []
              && messages[i].ccAddresses == [] && messages[i].bccAddresses == []
              && messages[i].attachments == []
              && messages[i].uniqueId == 0 && !messages[i].isReply && !messages[i].isForward
              && messages[i].originalMessageId.None?
  {
    messages := [];
    if |inbox| > 0 {
      for i := 0 to |inbox|
        invariant |messages| == i
        invariant forall j :: 0 <= j < i ==>
                    messages[j] == NewEmailMessage(0, inbox[j].messageId, inbox[j].subject,
                                                   BodyOf(inbox[j].textBody, inbox[j].htmlBody),
                                                   inbox[j].date, false, false, None)
      {
        var item := inbox[i];
        var emailMessage := NewEmailMessage(0, item.messageId, item.subject,
                                            BodyOf(item.textBody, item.htmlBody),
                                            item.date, false, false, None);
        messages := messages + [emailMessage];
      }
    }
  }

  // ---------------------------------------------------------------------------
  // Folder details

  function FolderDetailsOf(f: FolderRef): (d: EmailFolder)
    requires f.open.Opened?
    ensures d.id == f.id && d.name == f.fullName
    ensures d.totalMessages == f.open.count && d.unreadMessages == f.open.unread
  {
    EmailFolder(f.id, f.fullName, f.open.count, f.open.unread)
  }

  /** The folders whose open succeeded, in enumeration order. */
  function OpenedFolders(folders: seq<FolderRef>): (r: seq<FolderRef>)
    ensures |r| <= |folders|
    ensures forall k :: 0 <= k < |r| ==> r[k].open.Opened?
  {
    if folders == [] then []
    else OpenedFolders(folders[..|folders| - 1])
         + (if folders[|folders| - 1].open.Opened? then [folders[|folders| - 1]] else [])
  }

  /** The filter keeps exactly the folders whose open succeeded. */
  lemma {:induction false} OpenedFoldersKeepsExactly(folders: seq<FolderRef>)
    ensures forall f :: f in OpenedFolders(folders) <==> f in folders && f.open.Opened?
  {
    if folders != [] {
      var init := folders[..|folders| - 1];
      OpenedFoldersKeepsExactly(init);
      assert folders == init + [folders[|folders| - 1]];
    }
  }

  /** The filter keeps enumeration order: filtering two runs of folders one after
      the other is filtering each in turn. */
  lemma {:induction false} OpenedFoldersConcat(a: seq<FolderRef>, b: seq<FolderRef>)
    ensures OpenedFolders(a + b) == OpenedFolders(a) + OpenedFolders(b)
  {
    if b == [] {
      assert a + b == a;
    } else {
      var b' := b[..|b| - 1];
      assert (a + b)[..|a + b| - 1] == a + b';
      assert (a + b)[|a + b| - 1] == b[|b| - 1];
      OpenedFoldersConcat(a, b');
      var tail := if b[|b| - 1].open.Opened? then [b[|b| - 1]] else [];
      assert OpenedFolders(a) + (OpenedFolders(b') + tail) == (OpenedFolders(a) + OpenedFolders(b')) + tail;
    }
  }

  predicate NoUncaughtFailure(folders: seq<FolderRef>)
  {
    forall k :: 0 <= k < |folders| ==> !folders[k].open.OtherFailure?
  }

  /** What `GetAllFoldersWithDetails` returns: one entry per folder that opened, in
      order; a command error skips the folder, any other failure ends the listing. */
  function FolderDetails(folders: seq<FolderRef>): (r: Result<seq<EmailFolder>, MailError>)
    ensures r.Success? <==> NoUncaughtFailure(folders)
    ensures r.Success? ==> |r.value| == |OpenedFolders(folders)|
    ensures r.Success? ==> forall k :: 0 <= k < |r.value| ==>
              r.value[k] == FolderDetailsOf(OpenedFolders(folders)[k])
    ensures r.Failure? ==> r.error.FolderFailed?
  {
    if folders == [] then Success([])
    else
      var init :- FolderDetails(folders[..|folders| - 1]);
      var folder := folders[|folders| - 1];
      match folder.open
      case Opened(_, _) => Success(init + [FolderDetailsOf(folder)])
      case CommandRejected(_) => Success(init)
      case OtherFailure => Failure(FolderFailed(folder.fullName))
  }

  /** A failed listing names the first folder whose open threw an exception that
      is not an IMAP command error. */
  lemma {:induction false} FolderFailureNamesFirst(folders: seq<FolderRef>)
    ensures FolderDetails(folders).Failure? ==>
              exists k :: 0 <= k < |folders| && folders[k].open.OtherFailure?
                          && NoUncaughtFailure(folders[..k])
                          && FolderDetails(folders).error == FolderFailed(folders[k].fullName)
  {
    if folders != [] && FolderDetails(folders).Failure? {
      var n := |folders| - 1;
      var init := folders[..n];
      assert forall j :: 0 <= j < n ==> init[j] == folders[j];
      if FolderDetails(init).Failure? {
        FolderFailureNamesFirst(init);
        var k :| 0 <= k < |init| && init[k].open.OtherFailure? && NoUncaughtFailure(init[..k])
                 && FolderDetails(init).error == FolderFailed(init[k].fullName);
        assert init[..k] == folders[..k];
        assert folders[k].open.OtherFailure? && NoUncaughtFailure(folders[..k]);
      } else {
        assert folders[n].open.OtherFailure?;
        assert NoUncaughtFailure(folders[..n]);
      }
    }
  }

  /** Listing a concatenation is listing each part in turn; the first failure wins. */
  function AndThen(x: Result<seq<EmailFolder>, MailError>, y: Result<seq<EmailFolder>, MailError>)
    : Result<seq<EmailFolder>, MailError>
  {
    if x.Failure? then x else if y.Failure? then y else Success(x.value + y.value)
  }

  lemma {:induction false} FolderDetailsConcat(a: seq<FolderRef>, b: seq<FolderRef>)
    ensures FolderDetails(a + b) == AndThen(FolderDetails(a), FolderDetails(b))
  {
    if b == [] {
      assert a + b == a;
      var x := FolderDetails(a);
      if x.Success? { assert x.value + [] == x.value; }
    } else {
      var b' := b[..|b| - 1];
      var last := b[|b| - 1];
      assert (a + b)[..|a + b| - 1] == a + b';
      assert (a + b)[|a + b| - 1] == last;
      FolderDetailsConcat(a, b');
      var x, y := FolderDetails(a), FolderDetails(b');
      if x.Success? && y.Success? {
        match last.open
        case Opened(_, _) =>
          assert x.value + (y.value + [FolderDetailsOf(last)]) == (x.value + y.value) + [FolderDetailsOf(last)];
        case CommandRejected(_) =>
        case OtherFailure =>
      }
    }
  }

  /** The folder loop with its try/catch around the read-only open. */
  method GetAllFoldersWithDetails(folders: seq<FolderRef>) returns (r: Result<seq<EmailFolder>, MailError>)
    ensures r == FolderDetails(folders)
  {
    var details: seq<EmailFolder> := [];
    for i := 0 to |folders|
      invariant FolderDetails(folders[..i]) == Success(details)
    {
      assert folders[..i + 1][..i] == folders[..i];
      var folder := folders[i];
      match folder.open
      case Opened(count, unread) =>
        details := details + [EmailFolder(folder.id, folder.fullName, count, unread)];
      case CommandRejected(_) =>
        // logged and skipped
      case OtherFailure =>
        assert folders == folders[..i + 1] + folders[i + 1..];
        FolderDetailsConcat(folders[..i + 1], folders[i + 1..]);
        return Failure(FolderFailed(folder.fullName));
    }
    assert folders[..|folders|] == folders;
    return Success(details);
  }

  /** A folder whose open fails with a command error is dropped, and the listing
      is the listing of the other folders in their order. */
  lemma FailedFolderIsSkipped(folders: seq<FolderRef>, i: nat)
    requires i < |folders| && folders[i].open.CommandRejected?
    ensures FolderDetails(folders) == FolderDetails(folders[..i] + folders[i + 1..])
  {
    var before, single, after := folders[..i], [folders[i]], folders[i + 1..];
    assert folders == (before + single) + after;
    SkippedFolderListsNothing(folders[i]);
    FolderDetailsConcat(before, single);
    AndThenNothing(FolderDetails(before));
    assert FolderDetails(before + single) == FolderDetails(before);
    FolderDetailsConcat(before + single, after);
    FolderDetailsConcat(before, after);
  }

  lemma SkippedFolderListsNothing(f: FolderRef)
    requires f.open.CommandRejected?
    ensures FolderDetails([f]) == Success([])
  {
    assert [f][..0] == [];
  }

  lemma AndThenNothing(x: Result<seq<EmailFolder>, MailError>)
    ensures AndThen(x, Success([])) == x
  {
    if x.Success? { assert x.value + [] == x.value; }
  }

  lemma {:induction false} AllOpenedAreKept(folders: seq<FolderRef>)
    requires forall k :: 0 <= k < |folders| ==> folders[k].open.Opened?
    ensures OpenedFolders(folders) == folders
  {
    if folders != [] {
      AllOpenedAreKept(folders[..|folders| - 1]);
      assert folders[..|folders| - 1] + [folders[|folders| - 1]] == folders;
    }
  }

  /** When every folder opens, the listing has one entry per folder, in order. */
  lemma EveryOpenedFolderIsListed(folders: seq<FolderRef>)
    requires forall k :: 0 <= k < |folders| ==> folders[k].open.Opened?
    ensures FolderDetails(folders).Success?
    ensures |FolderDetails(folders).value| == |folders|
    ensures forall k :: 0 <= k < |folders| ==> FolderDetails(folders).value[k] == FolderDetailsOf(folders[k])
  {
    AllOpenedAreKept(folders);
  }
}
