# WebApiEmailMessage: the mail and message-bus core in Dafny

WebApiEmailMessage is an ASP.NET service that reads an IMAP mailbox with MailKit
and talks to Kafka with Confluent.Kafka. This project models the sequential logic
under that plumbing and proves properties of it:

- **The paged mail query** `EmailService.GetEmails(pageNumber, pageSize)`. It keeps the
  summaries that have a date, sorts them newest first with a stable sort, computes the
  window `[(pageNumber-1)*pageSize, min(start+pageSize, count))` and walks it. For each
  summary it fetches the message and builds one `EmailMessage`.
- **Building one `EmailMessage`.** This applies the body fallback from text to HTML, the
  `fw:`/`fwd:` forward test, the lower-cased `In-Reply-To` and `IsReply` copied from the
  summary. It also maps the four address lists in order and adds one attachment record per
  `MimePart` at `attachments/<FileName>`.
- **The whole-inbox listing** `GetEmails()`.
- **The folder-details listing** `GetAllFoldersWithDetails()`. A folder whose read-only open
  fails with an IMAP command error is skipped.
- **Topic-name sanitisation.** This is the same `Replace` chain, in the producer and in the consumer.
- **Publishing** `ProducerService.ProduceAsync`: an append to the log of the sanitised topic.
- **The windowed replay scan** `ConsumerService.ConsumeMessages`.

The IMAP client and the broker appear as plain data:

- the fetched summaries, as a `seq<Summary>`;
- the folder's full messages, as a map from unique id to `FullMessage`;
- the folders, each with the outcome of opening it;
- the broker, as a `Broker` object holding a map from topic name to a `seq<string>` log.

Exceptions that end a request become `Failure` values of a `Result`. These are a negative
list index, a message missing from the folder, a group address meeting the
`(MailboxAddress)` cast, an attachment without a file name and a folder open failing with
something other than an `ImapCommandException`.

Files, one module each:

- `wrappers.dfy`: `Option` and `Result`.
- `text.dfy`: ASCII lower-casing, ordinal `StartsWith` and single-character `Replace`.
- `mail_models.dfy`: the inputs and the records the service builds.
- `message_rules.dfy`: the per-message rules.
- `summary_order.dfy`: the date filter and the stable newest-first sort.
- `email_service.dfy`: the page query, record construction, the inbox listing and the folder listing.
- `kafka.dfy`: the broker.
- `producer.dfy` and `consumer.dfy`: the two Kafka services.

Three facts about the code shape the model:

- `SanitizeTopicName` sanitises the string it is given; no code builds a prefix such as
  `"email/"` in front of it.
- Summaries with equal dates keep their fetch order, because LINQ's `OrderByDescending` is
  a stable sort; there is no secondary sort key.
- `ProduceAsync` publishes its string argument unchanged; it serialises nothing.

`Models/EmailMessage.cs` declares only `Id`, the five lists, `Subject`, `Body` and `Date`.
The service also assigns `UniqueId`, `MessageId`, `IsReply`, `IsForward` and
`OriginalMessageId`. So the `EmailMessage` datatype carries the fields the service assigns.
In the whole-inbox listing, the fields that listing never sets hold C#'s defaults (0, false, null).

## Model

| member | source | states |
|---|---|---|
| MailModels.NewEmailMessage | WebApiEmailMessage/Models/EmailMessage.cs:5-12 | a new record has all five lists (To, From, Cc, Bcc, Attachments) empty, and every scalar field holds the value given to the initializer |
| MessageRules.BodyOf | WebApiEmailMessage/Services/EmailService.cs:155 | the body is the text body when that is non-null and non-empty, otherwise the HTML body; it is null or empty exactly when both are |
| MessageRules.IsForward | WebApiEmailMessage/Services/EmailService.cs:163 | a message is a forward exactly when its subject is non-null and, lower-cased, starts with "fw:" or "fwd:"; this is also stated character by character, so a null subject gives false |
| MessageRules.ForwardExamples | WebApiEmailMessage/Services/EmailService.cs:163 | "FW: hi", "Fwd: re: hi" and "fw:hi" are forwards; "forward planning" and a null subject are not |
| Text.ToLowerAscii | WebApiEmailMessage/Services/EmailService.cs:163-164 | lower-casing keeps the length, maps each character through ASCII lower-casing and leaves no upper-case ASCII letter |
| Text.ToLowerAsciiIdempotent | WebApiEmailMessage/Services/EmailService.cs:164 | lower-casing an already lower-cased string changes nothing |
| MessageRules.OriginalMessageId | WebApiEmailMessage/Services/EmailService.cs:164 | the original message id is present exactly when the In-Reply-To header is, and is that header lower-cased: same length, each character lower-cased |
| MessageRules.ToEmailAddress | WebApiEmailMessage/Services/EmailService.cs:170 | the cast succeeds exactly on a mailbox and keeps its address and name; a group fails with an invalid cast |
| MessageRules.MapAddressesSpec | WebApiEmailMessage/Services/EmailService.cs:170-173 | an address list maps exactly when every entry is a mailbox; the result then has one {Address, Name} per entry, in order; otherwise the error is the invalid cast |
| MessageRules.CombinePath | WebApiEmailMessage/Services/EmailService.cs:182 | Path.Combine("attachments", name) with a non-empty, non-rooted name is "attachments/" + name |
| MessageRules.MimeParts | WebApiEmailMessage/Services/EmailService.cs:175-177 | the selected parts are all MimeParts, are no more than the parts, and each comes from the message's attachments |
| MessageRules.MimePartsKeepsExactly | WebApiEmailMessage/Services/EmailService.cs:175-177 | a part is selected exactly when it is one of the message's attachments and a MimePart |
| MessageRules.MimePartsConcat | WebApiEmailMessage/Services/EmailService.cs:175-177 | the selection keeps order: selecting from two runs of parts is selecting from each in turn, so each part contributes itself when it is a MimePart and nothing otherwise |
| MessageRules.AttachmentOf | WebApiEmailMessage/Services/EmailService.cs:179-198 | a MimePart yields a record exactly when it has a file name; the record holds that name, the path attachments/<name> and the part's MIME type; a missing name fails |
| MessageRules.MapAttachmentsSpec | WebApiEmailMessage/Services/EmailService.cs:175-200 | the attachment list is built exactly when every MimePart has a file name, and then has one record per MimePart, in order, with non-MimePart entries skipped |
| MessageRules.Normalize | WebApiEmailMessage/Services/EmailService.cs:150-200 | the reference definition of building one record (initializer, the four mapped address lists, the mapped attachments); its properties are stated by NormalizeFields, and BuildEmailMessage is proved equal to it |
| MessageRules.NormalizeFields | WebApiEmailMessage/Services/EmailService.cs:150-200 | building a record succeeds exactly when all four address lists are mailboxes and every MimePart is named; the record then carries the summary's UniqueId and IsReply, the message's id, subject and date, the body rule, the forward rule, the lower-cased In-Reply-To, the four mapped address lists and the mapped attachments |
| EmailService.AddAddresses | WebApiEmailMessage/Services/EmailService.cs:170-173 | the AddRange loop appends the mapped addresses to the list; it succeeds exactly when every entry is a mailbox and otherwise fails with the invalid cast |
| EmailService.AddAttachments | WebApiEmailMessage/Services/EmailService.cs:175-200 | the foreach over attachments appends the mapped attachment records; it succeeds exactly when every MimePart is named and otherwise fails on the null file name |
| EmailService.BuildEmailMessage | WebApiEmailMessage/Services/EmailService.cs:150-200 | the imperative construction (initializer, four AddRange calls, attachment loop) yields the same result as the record-building rules |
| EmailService.FetchAndBuild | WebApiEmailMessage/Services/EmailService.cs:146-200 | fetching a missing unique id fails with that id; otherwise the record is built from the fetched message |
| SummaryOrder.WhereDated | WebApiEmailMessage/Services/EmailService.cs:94 | the filter keeps only dated summaries, never more than it was given, and keeps every dated summary |
| SummaryOrder.InsertByDate | WebApiEmailMessage/Services/EmailService.cs:95 | one insertion step keeps every summary dated and adds exactly the inserted summary to the multiset |
| SummaryOrder.InsertSorted | WebApiEmailMessage/Services/EmailService.cs:95 | inserting into a newest-first list keeps it newest first |
| SummaryOrder.OrderByDateDescending | WebApiEmailMessage/Services/EmailService.cs:95 | the sort returns a permutation of its input, newest first |
| SummaryOrder.InsertKeepsDateOrder | WebApiEmailMessage/Services/EmailService.cs:95 | insertion puts the summary before those with its date and keeps the relative order of all the others |
| SummaryOrder.SortKeepsDateOrder | WebApiEmailMessage/Services/EmailService.cs:95 | the sort is stable: for every date, the summaries with that date appear in input order |
| SummaryOrder.WhereKeepsDateOrder | WebApiEmailMessage/Services/EmailService.cs:94 | for every date, the filter keeps the summaries with that date in input order |
| SummaryOrder.SortedByDateSpec | WebApiEmailMessage/Services/EmailService.cs:93-96 | the sorted list holds exactly the dated summaries (as a multiset and membership), newest first, and summaries with equal dates keep their fetch order |
| EmailService.ConsecutivePagesAdjoin | WebApiEmailMessage/Services/EmailService.cs:99-100 | page p + 1 starts pageSize after page p; page p ends at or before that start, and exactly there unless the list ends first |
| EmailService.FirstPagesCoverPrefix | WebApiEmailMessage/Services/EmailService.cs:99-100 | pages 1..c laid end to end are exactly the first min(c * pageSize, n) sorted summaries: none is skipped or repeated |
| EmailService.NormalizeEach | WebApiEmailMessage/Services/EmailService.cs:139-200 | the reference definition of walking a run of summaries, fetching and building each record in order and stopping at the first error; the loop rows are proved against it and NormalizeEachContents states its properties |
| EmailService.NormalizeEachContents | WebApiEmailMessage/Services/EmailService.cs:139-200 | walking a run of summaries succeeds exactly when each can be fetched and built; the result then has one record per summary, the k-th built from the k-th summary |
| EmailService.NormalizeEachKeepsFirstFailure | WebApiEmailMessage/Services/EmailService.cs:139-146 | once a prefix of the walk fails, the whole walk fails with that first error |
| EmailService.NormalizeEachSnoc | WebApiEmailMessage/Services/EmailService.cs:139-169 | one more summary after a successful walk either appends its record or ends the walk with its error |
| EmailService.FetchAt | WebApiEmailMessage/Services/EmailService.cs:141-200 | one pass of the page loop: the record of the i-th summary extends the walk so far by one record, or its error is the error of the whole window |
| EmailService.CollectWindow | WebApiEmailMessage/Services/EmailService.cs:139-201 | the for loop over [startIndex, endIndex) returns the walk of that window: the records in order, or the first error |
| EmailService.PageFromSorted | WebApiEmailMessage/Services/EmailService.cs:99-141 | the reference definition of a page of the sorted list: empty when the start is at or past the end or the window is empty, an index error for a negative start, otherwise the walk of the window; WalkWindow is proved equal to it and PageFromSortedContents states its properties |
| EmailService.EmailPage | WebApiEmailMessage/Services/EmailService.cs:93-141 | the reference definition of the query's result: the page of the sorted dated summaries at (pageNumber - 1) * pageSize; GetEmails is proved equal to it and PageContents, PagePastEndIsEmpty and NonPositivePageFails state its properties |
| EmailService.WalkWindow | WebApiEmailMessage/Services/EmailService.cs:137-202 | the guarded loop returns the page of the sorted list: empty when startIndex >= count or the window is empty, an index error for a negative start, otherwise the walk of the window |
| EmailService.GetEmails | WebApiEmailMessage/Services/EmailService.cs:90-208 | the paged query (filter, sort, window arithmetic, guarded loop) returns the page of the newest-first dated summaries for pageNumber and pageSize |
| EmailService.PageFromSortedContents | WebApiEmailMessage/Services/EmailService.cs:137-152 | from a non-negative start, the page succeeds exactly when every summary in the window can be fetched and built; it then holds max(0, min(start + pageSize, n) - start) <= pageSize records, the k-th with sorted[start + k]'s unique id and built from it |
| EmailService.PageContents | WebApiEmailMessage/Services/EmailService.cs:99-152 | with pageNumber >= 1 and pageSize >= 1, the start is non-negative and the page has max(0, min(start + pageSize, n) - start) <= pageSize records; the k-th comes from sorted[start + k], with its UniqueId; the page fails exactly when a windowed summary cannot be fetched or built |
| EmailService.PagePastEndIsEmpty | WebApiEmailMessage/Services/EmailService.cs:137-138 | a page that starts at or past the number of dated summaries is an empty list, not an error |
| EmailService.NonPositivePageFails | WebApiEmailMessage/Services/EmailService.cs:99-141 | pageNumber <= 0 with pageSize >= 1 makes the first index negative, and the query fails with an index error |
| EmailService.GetInboxEmails | WebApiEmailMessage/Services/EmailService.cs:39-61 | the inbox listing has one record per inbox message, in order, with its id, subject, date and the body rule; all lists are empty and the unset fields keep their defaults |
| EmailService.FolderDetailsOf | WebApiEmailMessage/Services/EmailService.cs:272-278 | a folder's details hold its Id, FullName as Name, Count as TotalMessages and Unread as UnreadMessages |
| EmailService.OpenedFolders | WebApiEmailMessage/Services/EmailService.cs:266-281 | the folders kept are all ones whose open succeeded, and are no more than the folders enumerated |
| EmailService.OpenedFoldersKeepsExactly | WebApiEmailMessage/Services/EmailService.cs:266-281 | a folder is kept exactly when it is one of the folders enumerated and its open succeeded |
| EmailService.OpenedFoldersConcat | WebApiEmailMessage/Services/EmailService.cs:266-281 | the filter keeps enumeration order: filtering two runs of folders is filtering each in turn |
| EmailService.FolderDetails | WebApiEmailMessage/Services/EmailService.cs:265-290 | the listing succeeds exactly when no open throws an uncaught exception; it then has one entry per folder that opened, in enumeration order, each that folder's details; otherwise the error is a folder failure |
| EmailService.FolderFailureNamesFirst | WebApiEmailMessage/Services/EmailService.cs:266-287 | a failed listing names the first folder whose open threw an exception other than an IMAP command error: every folder before it opened or was skipped |
| EmailService.FolderDetailsConcat | WebApiEmailMessage/Services/EmailService.cs:266-287 | listing two runs of folders one after the other is listing each in turn; the first failure wins |
| EmailService.GetAllFoldersWithDetails | WebApiEmailMessage/Services/EmailService.cs:265-290 | the foreach with try/catch returns the folder listing |
| EmailService.SkippedFolderListsNothing | WebApiEmailMessage/Services/EmailService.cs:282-286 | a folder whose open fails with a command error, on its own, lists nothing and does not fail |
| EmailService.FailedFolderIsSkipped | WebApiEmailMessage/Services/EmailService.cs:282-286 | a folder whose open fails with a command error changes nothing: the listing equals the listing without it, with the other folders in order |
| EmailService.AllOpenedAreKept | WebApiEmailMessage/Services/EmailService.cs:266-281 | when every open succeeds, every folder is kept |
| EmailService.EveryOpenedFolderIsListed | WebApiEmailMessage/Services/EmailService.cs:266-281 | when every open succeeds, the listing has one entry per folder, the k-th the details of the k-th folder |
| Text.ReplaceChar | WebApiEmailMessage/Services/ProducerService.cs:35 | Replace of one character keeps the length and replaces exactly the occurrences of that character |
| Producer.SanitizeTopicName | WebApiEmailMessage/Services/ProducerService.cs:32-36 | sanitising keeps the length, turns each '/', '@' and '.' into '_', leaves every other character in place, and leaves no '/', '@' or '.' |
| Producer.SanitizeIdempotent | WebApiEmailMessage/Services/ProducerService.cs:35 | sanitising twice is sanitising once |
| Producer.SanitizeFixesCleanNames | WebApiEmailMessage/Services/ProducerService.cs:35 | a name is left unchanged exactly when it holds none of '/', '@', '.' |
| Producer.SanitizeNotInjective | WebApiEmailMessage/Services/ProducerService.cs:35 | the distinct names "a.b" and "a@b" both become the topic "a_b" |
| Kafka.Appended | WebApiEmailMessage/Services/ProducerService.cs:29 | appending to a topic adds the value at the end of its log, leaves every other topic's log unchanged, and adds the topic to the known topics |
| Producer.ProducerService.ProduceAsync | WebApiEmailMessage/Services/ProducerService.cs:22-30 | publishing appends the message, unchanged, to the log of the sanitised topic, and no other topic's log changes |
| Consumer.SanitizeTopicName | WebApiEmailMessage/Services/ConsumerService.cs:60-64 | the consumer's own copy of the sanitiser, the reference definition of the topic a replay subscribes to; SanitizersAgree proves it equal to the producer's |
| Consumer.SanitizersAgree | WebApiEmailMessage/Services/ConsumerService.cs:60-64 | the consumer's copy of the sanitiser equals the producer's, so it also keeps the length and leaves no '/', '@' or '.' |
| Consumer.ReplaySeesPublished | WebApiEmailMessage/Services/ConsumerService.cs:37 | a message published to a raw topic name is at the end of the log that a replay of the same raw name subscribes to |
| Consumer.Consumed | WebApiEmailMessage/Services/ConsumerService.cs:40-58 | the reference definition of a replay's outcome: the kept window of the first min(read limit, log length) entries, or blocking forever when the log runs dry and nothing cancels; ScanFeed is proved equal to it and the replay lemmas state its properties |
| Consumer.ReadCount | WebApiEmailMessage/Services/ConsumerService.cs:43-51 | the reference definition of how many entries a replay reads: the read limit, or the whole log when it is shorter |
| Consumer.ConsumerService.ConsumeMessages | WebApiEmailMessage/Services/ConsumerService.cs:34-59 | the replay subscribes to the sanitised topic, returns the windowed scan of its log and reads as many entries as the scan reads |
| Consumer.ScanFeed | WebApiEmailMessage/Services/ConsumerService.cs:40-58 | the while loop returns the entries at positions in [startIndex, endIndex) among those it read, stopping after endIndex reads or when cancelled; if the log runs dry and nothing cancels, it never returns |
| Consumer.CollectedIsWindow | WebApiEmailMessage/Services/ConsumerService.cs:43-51 | loop invariant: after n reads, the kept values are feed[min(max(startIndex, 0), n)..n] |
| Consumer.StarvedScan | WebApiEmailMessage/Services/ConsumerService.cs:45 | a log shorter than the read limit is read to its end; the replay then blocks forever without cancellation, or returns what it kept when cancelled |
| Consumer.StoppedScan | WebApiEmailMessage/Services/ConsumerService.cs:43 | when the loop test fails, the scan has read exactly its read limit and returns what it kept |
| Consumer.ConsumeWholeWindow | WebApiEmailMessage/Services/ConsumerService.cs:41-51 | without cancellation, with 0 <= startIndex <= endIndex <= the log length, the replay returns feed[startIndex..endIndex] after exactly endIndex reads |
| Consumer.ConsumeNothingWhenEndNonPositive | WebApiEmailMessage/Services/ConsumerService.cs:43-50 | with endIndex <= 0 nothing is read and nothing is returned |
| Consumer.EmptyWindowCollectsNothing | WebApiEmailMessage/Services/ConsumerService.cs:43-48 | with startIndex >= endIndex a returned replay is empty |
| Consumer.ReturnedValuesComeFromWindow | WebApiEmailMessage/Services/ConsumerService.cs:43-51 | a returned replay is a run of consecutive log entries from position max(startIndex, 0), all below endIndex, at most endIndex - max(startIndex, 0) of them |
| Consumer.CancelledReplayIsPrefix | WebApiEmailMessage/Services/ConsumerService.cs:43-58 | a cancelled replay always returns, and what it returns is a prefix of what the uncancelled replay returns |

## Left out

- IMAP session handling is not modelled: `Connect`, the removal of XOAUTH2 and NTLM,
  `Authenticate`, `GetFolders`, `OpenAsync`, `FetchAsync` and `Console.WriteLine`. Their
  results are the model's inputs.
- The selection of the folder named "All Mail" is left out. `GetEmails` models the work done
  on one such folder; with no such folder the C# method returns an empty list.
- The `Disconnect(true)` inside the folder loop is left out. It would matter only if a second
  folder named "All Mail" followed.
- Writing attachment files is left out: `Directory.CreateDirectory`, `File.Create`,
  `DecodeToAsync`, file-name collisions and I/O errors. `Size` is taken as an opaque input,
  the content stream's length or 0.
- `Path.Combine` is modelled with Unix path rules only.
- Lower-casing covers ASCII only, not the full Unicode `ToLowerInvariant`. `StartsWith` is
  modelled as an ordinal comparison, not a culture-sensitive one.
- The MimeKit header lookup `item.Headers["In-Reply-To"]` is modelled as an optional string
  on the full message.
- `EmailService.GetEmails`: does not model the 32-bit wrap-around of
  `(pageNumber - 1) * pageSize` and `startIndex + pageSize`. Its requires clause keeps both
  within the range of C# `int`.
- The C# object identity of an `EmailMessage` is not modelled. The service adds it to
  `messages` before filling its lists. The model builds the finished record as a value and
  appends it; an exception part-way through ends the request either way.
- The `Id` property of `EmailMessage` is never assigned by the service and is not modelled.
- `Models/EmailAddress.cs` is not part of this model. Its `Address` and `Name` fields are
  taken from their use in the service.
- `SaveSummariesToJsonAsync`, the commented-out JSON code and `GetAllFolders` are left out.
  They are JSON serialisation, file I/O and a pass-through of folder names.
- `ConsumerService.ExecuteAsync` is left out. It only sleeps until cancelled.
- Broker-side errors are not modelled. `ProduceAsync` awaits the client's produce call with
  no handler, so a failed produce would propagate; the model's publish always succeeds.
  A `Subscribe` or `Consume` error other than `OperationCanceledException` would also
  propagate; the model's replay never fails that way. A topic nobody has published to
  reads as an empty log.
- A summary's date is read as optional, as the `summary.Date != null` filter implies. If the
  mail library's summary date is never null, that filter keeps every summary and undated
  messages would sort by a minimum date instead of being dropped; the model does not cover
  that reading.
- Consumer-group offsets and the `Close` call in the cancellation handler are not modelled.
  Each replay is assumed to read its topic's log from the first entry.
- The Kafka client construction, the configuration and the wire protocols are not modelled.
  Publishing is an instant append.
- `Program.cs`, the controller and the configuration classes are left out, as are async
  scheduling and logging.
- The controller's call to `GetAllConsumers` is left out: `IEmailService` does not declare
  that method.
- `EmailService` never calls `ProducerService`, so the model keeps the mail side and the
  broker side separate.
