# A verified model of a Yggmail node

A mail node keeps mailboxes, mail rows, queue rows and message files, delivers queued mail to other
nodes, and serves IMAP and SMTP over all of it. This project models that state and what the code does
to it, and proves what the parts promise each other.

**The store.** Small messages live in their row, large ones in `<sanitized mailbox>/<id>.eml`.
`StoreModel` says, statement by statement and failing step by failing step, what each operation makes
of tables and files; `ViewOf` is the plain map of messages a store stands for. `Refinement`,
`Maintenance` and `Trace` prove that every history of operations acts on that map as if there were no
tiers. The classes in `FileStorage` and `Storage` run the same statements on mutable fields, with the
loops of the source, and are proved against those functions.

**Delivery.** `Delivery` is one run of a destination's queue as a function of the network's answers and
of the statements that fail. `Conservation` accounts for every message afterwards, and `Drain` explains each
message and queue row by its own attempt. `Retention` says over whole histories which steps leave mail behind.
`Enqueue` and `Sender` cover queueing and the imperative worker, `Counters` and `Backoff` its retry count and waiting times.
`Dispatch` is the starting of runs, `LastRecipient` the interleaving of several destinations on the same
messages.

**The writer.** `Writer` is the compare-and-swap worker with its unbuffered channel, for any number of
callers and every interleaving: it is linearizable and nobody is left waiting.

**The edges.** `Streams` is the contract of a reader that splits its bytes as it likes, `Sequence` the
numbering of a mailbox, `Bulk` and `Imap` the bulk operations, `SmtpRemote` and `SmtpLocal` the two kinds
of session, `Address` and `Paths` the two text formats.

A fault is an argument: how each statement or system call fares. Time, jitter, the network's answers, header
rewriting and the bare address of a recipient (`net/mail.ParseAddress`) are arguments too. An argument
`names` holds all mailbox names in use; `Fits` says that no two of them sanitize alike, which the store
needs and does not check (`Refinement.StreamKeepsValid` and `NestedMailboxOverwrites` say what happens
otherwise).

A writer task has three outcomes: it is carried out, it ends with an error, or its transaction cannot begin,
which the code reports to nobody. The last is a fault of every write (`Types.Write`).

Where the code departs from what one would expect, the model follows the code, and a lemma says exactly
when it makes a difference:

- A move or an expunge whose last failure comes after its file went can leave a row without one
  (`MoveKeepsValid`, `ExpungeKeepsValid`); a move of a blob whose final DELETE fails leaves the message in both
  mailboxes (`MoveDuplicates`).
- A write whose transaction cannot begin passes for success: mail can be accepted, copied or queued and not be there
  (`CreateRefines`, `Enqueue.QueueForLost`, `Bulk.CopyReported`, `SmtpRemote.DataOutcome`).
- The writer's tasks run their statements outside its transaction: their effect is there before the reply, and what a
  failing task had done by then is not undone (`Writer.AnsweredIsVisible`, `MoveDuplicates`).
- The mailbox Sent can be deleted by the application (`mobile/yggmail.go:759-768`; over IMAP
  `internal/imapserver/user.go:73-77` refuses it), and then the next message delivered to its last recipient stays in
  Outbox without a queue row (`Retention.DeletedSentStrands`); so does a message queued for no recipient or whose first recipient is
  unusable (`Enqueue.QueueForExact`). `Retention.HistoryStrands` has the exact condition of every step.
- A rejected message can stay in INBOX, and a failing withdrawal can damage other messages marked deleted there, and
  no others (`SmtpRemote.DataOutcome`, `DataKeepsValid`).
- A flag that cannot be written fails a new message that is stored all the same (`Imap.Mailbox.CreateMessage`).
- Outbox ids are reused, so a worker that still holds an old id can move a new message (`LastRecipient.HistorySafe`).
- An IMAP move always refuses a message that is stored as a file: `internal/imapserver/mailbox.go:433` gives no file store
  (`Refinement.Movable` without files, `Bulk.MoveExact`).
- A row queued after a run has read its list waits for the manager (`Dispatch.EnqueueCovers`, `WokenRow`).
- `n:*` over sequence numbers ends at the largest id, not at the count (`Bulk.StarNeedsNoGaps`); a range from 0 to `*`
  never resolves over sequence numbers, and over UIDs selects everything (`Bulk.LoneStar`).
- Several flags on a new message overwrite each other (`Imap.FlagsHonoured`); a copy gets a new date (`Bulk.CopyExact`).
- Address digits are cut or padded to 32 bytes (`Address.NormalFormKeepsLocalPart`).
- The comment at `internal/smtpsender/sender.go:595` gives other retry delays than the code computes; `Backoff` follows the code.

## Model

| member | source | states |
|---|---|---|
| Paths.SanitizeNormalises | internal/storage/filestore/filestore.go:318-331 | A sanitized mailbox name has no separator, no `..`, no colon and no outer space and is not empty; sanitizing leaves a name alone exactly when it already is such a name, so it is idempotent. |
| Paths.SanitizePointwise | internal/storage/filestore/filestore.go:318-331 | In a name without double dots and outer spaces each of `/`, `\`, `:` becomes one underscore and nothing else changes. |
| Paths.DotsBecomeOne | internal/storage/filestore/filestore.go:323 | Each pair of dots, from the left, becomes one underscore. |
| Paths.RelPathInjective | internal/storage/filestore/filestore.go:98-111 | Two messages are given the same file exactly when their mailboxes sanitize alike and their ids are equal. |
| Paths.RelPathAccepted | internal/storage/filestore/filestore.go:122-124 | Every path handed out passes the `..` check of the file operations and ends in `.eml`, so the walks see it. |
| Paths.PlainPath | internal/storage/filestore/filestore.go:98-111 | A message of a mailbox named with letters lies in `<mailbox>/<id>.eml`; `Text.DecimalValue` says that the digits stand for the id. |
| Refinement.FirstPaths | internal/storage/filestore/filestore.go:98-111 | The first file of each protected mailbox is `INBOX/1.eml`, `Outbox/1.eml`, `Sent/1.eml`. |
| Paths.SanitizeCollides | internal/storage/filestore/filestore.go:318-331 | Sanitizing is not injective: `A/B` and `A_B` share a directory. |
| FileStorage.FileStore.StoreMail | internal/storage/filestore/filestore.go:49-113 | On success exactly the file of (mailbox, id) holds the data, and path and size are reported; on failure no file has changed. |
| FileStorage.FileStore.ReadMail | internal/storage/filestore/filestore.go:117-142 | The bytes of the named file; refused for paths with `..` or when stat or open fails, not found when it is missing. |
| FileStorage.FileStore.DeleteMail | internal/storage/filestore/filestore.go:145-165 | Fails exactly for a path with `..` or a file that is there and cannot be removed; a missing file is no error; nothing else changes. |
| FileStorage.FileStore.MoveMail | internal/storage/filestore/filestore.go:169-207 | Succeeds exactly for an existing, acceptable source; then the bytes are under the path of the new mailbox and id and the old path is gone; otherwise nothing changed. |
| FileStorage.FileStore.GetTotalSize | internal/storage/filestore/filestore.go:210-231 | The sum of the sizes of all message files. |
| FileStorage.FileStore.CleanupOrphanedFiles | internal/storage/filestore/filestore.go:236-278 | Computes CleanFiles, the removal of unreferenced message files up to the first that cannot be removed, for the order of its walk. |
| Refinement.InsertRefines | internal/storage/sqlite3/table_mails.go:88-106 | Inserting a row that is right about its content adds that message under the next id and changes no other; it is refused exactly on a fault or for an unknown mailbox. |
| Refinement.DeleteRefines | internal/storage/sqlite3/table_mails.go:126-128 | Deleting rows removes those messages and, by the cascade, their queue rows, and nothing else. |
| Refinement.FlagsRefine | internal/storage/sqlite3/table_mails.go:370-382 | Setting flags or marking deleted changes the flags of that message only. |
| Refinement.CreateRefines | internal/storage/sqlite3/table_mails.go:198-204 | MailCreate adds the message under the next id, or changes nothing; a writer task that could not begin changes nothing either and is reported as success with id 0. |
| Refinement.CreateFromStreamRefines | internal/storage/sqlite3/table_mails.go:209-268 | The streaming create adds the same message as MailCreate would, whichever tier it lands in, or changes no message, for every combination of failing steps; a task that could not begin leaves only a spare file and is reported as success with id 0. |
| Refinement.StreamTier | internal/storage/sqlite3/table_mails.go:226-239 | A streamed message that was stored is a file exactly from 10 MB up. |
| Refinement.FailedStreamLeaves | internal/storage/sqlite3/table_mails.go:233-268 | The streaming create succeeds exactly when no step fails and the mailbox exists; a failed one changes no row and leaves no file behind, unless the removal of the file fails too. |
| Refinement.MoveRefines | internal/storage/sqlite3/table_mails.go:434-510 | For every combination of failing steps that leaves the file somewhere: a move that succeeds takes the message, content, date and flags, to the next id of the destination and touches no other; one whose final DELETE fails leaves it in both mailboxes, exactly for a live blob; any other failing move changes no message, because moving the file back restores the path its key names; one that could not begin reports success and changes nothing. |
| Refinement.MoveDuplicates | internal/storage/sqlite3/table_mails.go:499-502 | That failing DELETE, for every movable blob: the caller gets an error, the store is well formed, and the message is in both mailboxes. |
| Refinement.MoveKeepsValid | internal/storage/sqlite3/table_mails.go:492-505 | For every combination of failing steps: a move leaves a well-formed store exactly unless the insert and the move back of a file both fail, or the final DELETE of a file row does. |
| Refinement.FileMoveOutcome | internal/storage/sqlite3/table_mails.go:456-498 | What the move of a file row leaves, step by step: success, restored store, or a row without its file. |
| Refinement.ExpungeRefines | internal/storage/sqlite3/table_mails.go:388-422 | Expunging removes exactly the messages marked deleted in the mailbox, with or without a file store and whichever files could not be removed; failing before a file went, or never begun, it removes none. |
| Refinement.ExpungeKeepsValid | internal/storage/sqlite3/table_mails.go:409-420 | When the DELETE fails after the files were removed the store is damaged exactly if there was a file to remove. |
| Refinement.MailboxesRefine | internal/storage/sqlite3/table_mailboxes.go:139-158 | Creating a mailbox adds its name; deleting one removes its messages and, through two cascades, their queue rows. |
| Refinement.QueueRefines | internal/storage/sqlite3/table_queue.go:28-38 | A queue row is inserted exactly if its task runs, its key is new and its message exists; inserting and deleting rows changes no message. |
| Refinement.StreamKeepsValid | internal/storage/sqlite3/table_mails.go:236-255 | With no assumption on mailbox names: storing a large message damages the store exactly when another row already names the file. |
| Refinement.NestedMailboxOverwrites | internal/storage/filestore/filestore.go:318-331 | A concrete pair of mailboxes, `A/B` and `A_B`, for which the first large message of one replaces that of the other. |
| Trace.StepRefines | internal/storage/sqlite3/table_mails.go:40-55 | Every operation, with every combination of failing steps, keeps the store well formed (each row exactly one of blob or file, right size, its own existing file) exactly when no file was lost between two steps, and then acts on the messages as the plain map operation of the same answer does. |
| Trace.HistoryRefines | internal/storage/sqlite3/table_mails.go:198-510 | After every history of operations that lost no file the two-tier store is well formed, stands for the plain map (mailbox, id) to message driven by the same operations and answers, and has returned the ids that map would; operations that could not begin are steps that change nothing. |
| Trace.HistoryStaysValid | internal/storage/sqlite3/table_mails.go:388-510 | That condition is exact: a history passes only through well-formed stores if and only if each of its operations lost no file. |
| Trace.StepAnswers | internal/storage/sqlite3/table_mails.go:198-510 | An operation fails exactly for a failing step, or for a message, mailbox or queue row that is missing or there already; a task that could not begin reports success. |
| Trace.HistoryAnswers | internal/storage/sqlite3/table_mails.go:198-510 | Every answer in a recoverable history is the one StepAnswers gives at that point. |
| Trace.StepMaintains | internal/storage/sqlite3/migrations.go:216-267 | A migration leaves above the threshold exactly the blobs that failed, and a sweep that meets no stuck orphan leaves no orphan it visited. |
| Storage.SQLite3Storage.MailboxCreate | internal/storage/sqlite3/table_mailboxes.go:139-144 | INSERT OR IGNORE of a mailbox name; failing or never begun, nothing. |
| Storage.SQLite3Storage.MailboxDelete | internal/storage/sqlite3/table_mailboxes.go:153-158 | Removes the mailbox and cascades into mails and queue; failing or never begun, nothing. |
| Storage.SQLite3Storage.InsertRow | internal/storage/sqlite3/table_mails.go:88-106 | The INSERT with `IFNULL(MAX(id)+1,1)`: new row under the next id, refused for an unknown mailbox. |
| Storage.SQLite3Storage.MailNextID | internal/storage/sqlite3/table_mails.go:309-313 | One more than the largest id in the mailbox, 1 when it is empty. |
| Storage.SQLite3Storage.InsertInTask | internal/storage/sqlite3/table_mails.go:198-204 | The INSERT inside a writer task: never begun, the caller keeps id 0 and no error. |
| Storage.SQLite3Storage.MailCreate | internal/storage/sqlite3/table_mails.go:198-204 | The whole new state and the answer of MailCreate, for a task that works, fails or never begins. |
| Storage.SQLite3Storage.MailCreateFromStream | internal/storage/sqlite3/table_mails.go:209-242 | For every way the reader splits its bytes, the state and id are those of creating the whole original message; a reader that fails leaves the store as it was. |
| Storage.SQLite3Storage.CreateFile | internal/storage/sqlite3/table_mails.go:233-267 | The file half: file under the next id, then the row, and the file removed again if the row cannot be inserted. |
| Storage.SQLite3Storage.MailSelect | internal/storage/sqlite3/table_mails.go:270-290 | The row and its sequence number, which MailIDForSeq maps back to the id. |
| Storage.SQLite3Storage.MailIDForSeq | internal/storage/sqlite3/table_mails.go:315-319 | The id with a given sequence number, or not found. |
| Storage.SQLite3Storage.ReadContent | internal/smtpsender/sender.go:381-398 | For every row of a well-formed store, the bytes it stands for, from whichever tier; an error exactly for a file that cannot be opened. |
| Storage.SQLite3Storage.MailUpdateFlags | internal/storage/sqlite3/table_mails.go:370-375 | The flags of one row, and the answer, for an UPDATE that works, fails or never begins. |
| Storage.SQLite3Storage.MailDelete | internal/storage/sqlite3/table_mails.go:377-382 | Sets the deleted flag of one row, with the same three outcomes. |
| Storage.SQLite3Storage.MailExpunge | internal/storage/sqlite3/table_mails.go:384-386 | Expunge without a file store: rows only. |
| Storage.SQLite3Storage.DeleteFiles | internal/storage/sqlite3/table_mails.go:409-416 | The loop over the files removes exactly those that can be removed. |
| Storage.SQLite3Storage.MailExpungeWithFileStore | internal/storage/sqlite3/table_mails.go:388-422 | Files first, then rows: the whole new state for every fault. |
| Storage.SQLite3Storage.MailMoveWithFileStore | internal/storage/sqlite3/table_mails.go:434-510 | Computes the step-by-step function Move, including every branch of the compensation, for every fault and with or without a file store. |
| Storage.SQLite3Storage.MailGetAllFilePaths | internal/storage/sqlite3/table_mails.go:514-536 | Exactly the paths named by rows. |
| Storage.SQLite3Storage.QueueInsertDestinationForID | internal/storage/sqlite3/table_queue.go:138-143 | One queue row for an Outbox message, refused for a duplicate key or a missing message. |
| Storage.SQLite3Storage.QueueDeleteDestinationForID | internal/storage/sqlite3/table_queue.go:145-150 | Removes that one row, with the same three outcomes. |
| Storage.SQLite3Storage.QueueSelectIsMessagePendingSend | internal/storage/sqlite3/table_queue.go:152-164 | Whether any destination still has a row for the message. |
| Storage.SQLite3Storage.QueueMailIDsForDestination | internal/storage/sqlite3/table_queue.go:113-136 | Exactly the ids waiting for a destination, in strictly descending order, each with its sender and recipient. |
| Storage.SQLite3Storage.SelectLarge | internal/storage/sqlite3/migrations.go:216-223 | The cursor of the migration: each large blob once, longest first. |
| Storage.SQLite3Storage.MigrateMessage | internal/storage/sqlite3/migrations.go:236-267 | One message: file first, then the row, and the file removed again if the update fails. |
| Storage.SQLite3Storage.MigrateLargeMessagesToFiles | internal/storage/sqlite3/migrations.go:212-281 | The loop computes MigrateRows over its cursor for any mix of per-row failures. |
| Sequence.SeqAndIdAreInverse | internal/storage/sqlite3/table_mails.go:57-60 | In any mailbox sequence numbers and ids are inverse bijections between 1..count and the live ids (section 2.3.1.2 of RFC 3501). |
| Sequence.SeqKeepsOrder | internal/storage/sqlite3/table_mails.go:57-60 | They keep the order. |
| Sequence.NewMessageIsLast | internal/storage/sqlite3/table_mails.go:88-106 | A new message gets the new count as its number and leaves the others alone. |
| Sequence.ExpungeKeepsOrder | internal/storage/sqlite3/table_mails.go:126-128 | After an expunge each survivor is renumbered by the messages removed before it, and their order is unchanged. |
| Maintenance.MigrationRefines | internal/storage/sqlite3/migrations.go:236-267 | Whatever fails, a migration changes no message, only where its bytes live. |
| Maintenance.MigrationLeaves | internal/storage/sqlite3/migrations.go:216-267 | The blobs above the threshold that remain are exactly those whose migration failed. |
| Maintenance.MigrationCounts | internal/storage/sqlite3/migrations.go:265-266 | The report counts exactly the blobs that went, and their bytes. |
| Maintenance.MigrationCompletes | internal/storage/sqlite3/migrations.go:284-293 | Without failures no row holds a blob longer than the threshold, count and bytes equal EstimateMigrationSize before, and a second migration has nothing to do. |
| Maintenance.SmallRowsStay | internal/storage/sqlite3/migrations.go:216-223 | Whatever fails, a row whose blob is no longer than the threshold, or that is a file already, is left as it is. |
| Maintenance.MigrationFiles | internal/storage/sqlite3/migrations.go:244-263 | For every mix of failures: the files a migration leaves behind are exactly those of migrated rows and of rows whose update failed and whose file could not be removed, and each holds what its row held. |
| Maintenance.CleanRemoves | internal/storage/filestore/filestore.go:250-270 | However far the sweep gets only orphans are removed, and it fails exactly at an orphan it cannot remove. |
| Maintenance.CleanReports | internal/storage/filestore/filestore.go:261-268 | Reported count and bytes are exactly what was removed. |
| Maintenance.CleanRefines | internal/storage/filestore/filestore.go:259-262 | Cleaning with the paths of MailGetAllFilePaths touches no message. |
| Maintenance.CleanAgrees | internal/storage/sqlite3/migrations.go:325-338 | After a complete sweep the total size on disk equals the file size in the storage statistics. |
| Conservation.RunConserves | internal/smtpsender/sender.go:263-591 | For every list of references, network outcome and failing or skipped statement: after a run each Outbox message is still there with its rows, or in Sent with the same content, date and flags, or gone for a stated reason (deleted by its owner, expired, rejected), never two of these; each self-send added exactly one INBOX message with its content; nothing else changed. |
| Conservation.MissingRow | internal/smtpsender/sender.go:289-293 | The delete that names `Outbox` as the destination when a message is missing removes nothing, as no queue row can refer to a missing message. |
| Drain.RunExplained | internal/smtpsender/sender.go:282-590 | Why each message and row is where it is, as exact conditions on the starting state, its own attempt and its faults: moved to Sent if and only if it was delivered to its last recipient and row, check and move worked; expired if and only if older than 604800 s (seven days) at its attempt and last; rejected if and only if the network or a statement after the delivery answered with a permanent error and it was last; copied to INBOX if and only if self-sent; its row gone only for one of these; everything behind the end of the run untouched; a message its owner deleted loses this row and, with the last one, goes for good. |
| Drain.RunIsAfterRun | internal/smtpsender/sender.go:263-591 | Whatever failed before: what a run does to the messages and the queue is the same for every retry count and permanent-failure mark it starts from, so RunDrains, QueueEmpties, RunStrands and the runs of Retention are about every run. |
| Drain.RunDrained | internal/smtpsender/sender.go:263-591 | RunDrains and RunStrands for a run from any counters; this is what `Sender.Queue.Run` ensures. |
| Drain.RunDrains | internal/smtpsender/sender.go:282-590 | For every failing statement: a reference keeps its row exactly when its message is live and its attempt failed temporarily, its row could not be deleted, or it came after the first permanent failure; and after the expunge no message marked deleted stays in Outbox. |
| Drain.NothingExpunged | internal/smtpsender/sender.go:265-307 | When no expunge of a run is carried out, neither that of a retracted message nor the last one, no message leaves Outbox but to Sent. |
| Drain.QueueEmpties | internal/smtpsender/sender.go:300-323 | A run empties the queue of its destination exactly when no reference stays queued in that sense, in particular when every reference is deleted or too old, whatever the network does. |
| Drain.RunStrands | internal/smtpsender/sender.go:536-557 | With every failing statement: a run leaves an Outbox message without any queue row exactly when one of its attempts takes the last row without sending, expiring or rejecting the message. |
| Drain.CleanStrands | internal/smtpsender/sender.go:537-556 | When no statement fails that is exactly a delivery to the last recipient of a message the move to Sent refuses. |
| Counters.ProcessCounts | internal/smtpsender/sender.go:349-588 | One attempt: a temporary failure adds one to the retry count, a recorded delivery clears it, a permanent error sets the mark, and nothing else touches either. |
| Counters.RunCounts | internal/smtpsender/sender.go:284-588 | After a run the retry count is the number of temporary failures since the last recorded delivery, or the starting count plus all of them if there was none; the mark of a permanent failure is set if and only if the run was ended by one, or it was set before and no recorded remote delivery cleared it. |
| Counters.NextRunWaits | internal/smtpsender/sender.go:267-279 | If a run has a temporary failure after its last recorded delivery, the next one starts at least 48 s after it started. |
| Retention.StepKeeps | internal/smtpsender/sender.go:73-591 | From an Outbox without stranded mail: queueing, a run of any destination, receiving, flagging, expunging, moving, creating and deleting mailboxes leave a stranded message exactly under the stated condition of each. |
| Retention.HistoryStrands | internal/smtpsender/sender.go:73-591 | Over every history of these operations Outbox stays free of stranded mail if and only if every step meets its condition. |
| Retention.NothingStranded | internal/smtpsender/sender.go:73-591 | No history strands a message in which submitted mail has content and a good first recipient, Sent is not deleted, nothing is put into Outbox by other means and no statement fails. |
| Retention.DeletedSentStrands | mobile/yggmail.go:759-768 | Deleting the mailbox Sent is allowed and harmless by itself, and the next message delivered to its last recipient is stranded: in Outbox, unmarked, with no queue row. |
| Enqueue.QueueForExact | internal/smtpsender/sender.go:93-133 | Queueing succeeds exactly for recipients whose addresses all name keys, pairwise different among the rows carried out, and no failing INSERT; then it adds one message and, per recipient whose INSERT began, exactly one row, under the 64 lower-case digits that decode to its key; it leaves no stranded message exactly when the first recipient not skipped gets its row. |
| Enqueue.QueueForLost | internal/smtpsender/sender.go:103-130 | When creating the message fails or never begins nothing is queued, and that passes for success exactly if every INSERT of a row never begins either. |
| Enqueue.InsertRowsOnlyAdds | internal/smtpsender/sender.go:115-133 | The rows added, however far the loop gets, are rows of the new message for its recipients. |
| Enqueue.HostIsKey | internal/smtpsender/sender.go:118-126 | A recipient has a destination exactly if its address names a key, and it is the 64 lower-case digits that decode to that key. |
| Backoff.DelayGrows | internal/smtpsender/sender.go:594-602 | Before jitter the delay starts at exactly 60 s, doubles, never shrinks and is 3600 s exactly from the seventh retry on. |
| Backoff.BackoffBounds | internal/smtpsender/sender.go:604-608 | With jitter in [-0.2, 0.2) every wait is at least 48 s and below 4320 s. |
| Backoff.WaitIsDelay | internal/smtpsender/sender.go:604-608 | The wait is the delay with its jitter, rounded down to a second. |
| Sender.Queue.AwaitBackoff | internal/smtpsender/sender.go:268-279 | A run that follows a failure starts no sooner than the backoff after the last attempt. |
| Sender.Queue.SettleMessage | internal/smtpsender/sender.go:355-370 | The last-recipient check: the message moves to Sent when nothing is pending, for every failing step of the move that can be undone. |
| Sender.Queue.RetireMessage | internal/smtpsender/sender.go:316-319 | Deletes the row and marks the message when it was the last. |
| Sender.Queue.DropDeleted | internal/smtpsender/sender.go:299-308 | A message its owner deleted: the row goes, and with the last row the expunge. |
| Sender.Queue.HandleError | internal/smtpsender/sender.go:560-583 | The three-way classification: retry later with one more failure counted, or give the recipient up and end the run. |
| Sender.Queue.Transmit | internal/smtpsender/sender.go:377-530 | From the dial to the last byte: it succeeds when nothing on the way fails, not when the other node refuses or the source breaks, and then the DATA writer has received exactly the message under the envelope of its row, with its size announced; otherwise a prefix. |
| Sender.Queue.SendRemote | internal/smtpsender/sender.go:380-589 | The conversation decides: on success row, last-recipient check and move to Sent, otherwise the classification of its error; what was handed over is returned. |
| Sender.Queue.RecordRemote | internal/smtpsender/sender.go:537-557 | After a delivery: the row, whose error is reported, and the last-recipient check. |
| Sender.Queue.RecordSelf | internal/smtpsender/sender.go:355-370 | After a self-send: the row, whose error is ignored, and the last-recipient check. |
| Sender.Queue.DropMisdirected | internal/smtpsender/sender.go:291-293 | The delete that names the mailbox as the destination. |
| Sender.Queue.ExpungeOutbox | internal/smtpsender/sender.go:265 | The deferred expunge, for each of its three outcomes. |
| Sender.Queue.CopyToInbox | internal/smtpsender/sender.go:330-348 | Exactly one new INBOX message with the content, from either tier, or none. |
| Sender.Queue.SendSelf | internal/smtpsender/sender.go:325-375 | Self-send: the copy, the row, the last-recipient check, the counter. |
| Sender.Queue.HandleRef | internal/smtpsender/sender.go:288-590 | One reference, through every branch; a remote delivery has handed over exactly the message. |
| Sender.Queue.HandleRefs | internal/smtpsender/sender.go:288-590 | The loop over the references, with its early return. |
| Sender.Queue.Run | internal/smtpsender/sender.go:263-591 | One whole run computes ProcessAll and the final expunge on the answers its own conversations gave, from whatever counters it starts; keeps the account of RunConserves, every explanation of RunExplained, the counters of RunCounts, and leaves exactly the rows and the stranded messages of RunDrains and RunStrands; each remote delivery wrote exactly the message as it was when the run began, under the envelope of its row; and it starts at least the backoff after the previous failed attempt. |
| Sender.Queue.ResetRetryCounter | internal/smtpsender/sender.go:234-243 | Clears retry count, last attempt and the permanent-failure mark. |
| Sender.Queues.QueueFor | internal/smtpsender/sender.go:93-144 | Computes the specification QueueFor on the messages, whichever tier the message goes to, for every failing or skipped statement. |
| Sender.Queues.QueueForStream | internal/smtpsender/sender.go:148-213 | The same for a stream: what was read ahead is put back, so the whole message is queued however the reader splits it. |
| Sender.Queues.InsertRecipients | internal/smtpsender/sender.go:190-205 | One row per recipient up to the first that fails. |
| Sender.SelfIsOwnKey | internal/smtpsender/sender.go:326-327 | A row queued for a recipient is delivered locally exactly if the recipient's address names this node's own key. |
| Dispatch.NeverTwoRuns | internal/smtpsender/sender.go:217-230 | In every interleaving of enqueues, manager rounds and runs no destination has two runs at once, and `running` says which have one. |
| Dispatch.RowIffQueued | internal/smtpsender/sender.go:128-132 | Over every interleaving a row is in the queue if and only if it was put there and no attempt has retired it since. |
| Dispatch.LeftIsUntried | internal/smtpsender/sender.go:281-288 | A run that goes on has left exactly the references it read and has not attempted, so it attempts each once. |
| Dispatch.FinishTriesAll | internal/smtpsender/sender.go:287-288 | A run that ends without giving up has attempted every row there was when it read its references. |
| Dispatch.BusyIffGoing | internal/smtpsender/sender.go:217-230 | Over every interleaving a destination is busy exactly while a goroutine that was started for it has not ended. |
| Dispatch.RunGoesOn | internal/smtpsender/sender.go:263-288 | A run can always read, attempt any reference it has left and then has one less, or end; only its own steps change what it has left. |
| Dispatch.EnqueueCovers | internal/smtpsender/sender.go:128-132 | Queueing, with nothing in between, wakes a run that will attempt the new row exactly unless a run of that destination has already read its references without it. |
| Dispatch.WokenRow | internal/smtpsender/sender.go:128-132 | Over every interleaving: when a row's destination is woken, by its enqueue or by the manager, at any later time, the row has been attempted, or a run will attempt it, or one run has been going on without it ever since it was inserted. |
| Dispatch.RoundReaches | internal/smtpsender/sender.go:73-80 | A round of the manager wakes every destination that had a row when it began, whatever happens meanwhile. |
| Dispatch.WakeCovers | internal/smtpsender/sender.go:217-230 | Waking a destination covers a row exactly unless a run has read its references without it. |
| Dispatch.CoverageLasts | internal/smtpsender/sender.go:281-291 | A row that a run will attempt stays so until it is attempted or its run gives up (unreadable list, permanent error). |
| LastRecipient.StepSafe | internal/smtpsender/sender.go:532-556 | What every step of every interleaving keeps: a worker never holds a stale reference, nothing is moved while pending, every Outbox message is pending or about to be moved. |
| LastRecipient.EveryRunIsSafe | internal/smtpsender/sender.go:538-556 | Over every interleaving Sent gains exactly one copy per move, in order and unchanged; exactly the moved messages left Outbox; nothing moves while a row is pending. |
| LastRecipient.FailedSend | internal/smtpsender/sender.go:560-584 | A failed send leaves row, message and everything moved so far as they are. |
| LastRecipient.RowsGoBySending | internal/smtpsender/sender.go:380-540 | Over every interleaving a row that was there at the start is gone only after a successful send of its message to its destination. |
| LastRecipient.SentToAll | internal/smtpsender/sender.go:537-556 | Every message moved to Sent was sent successfully to every destination that had a row for it. |
| LastRecipient.EveryMessageIsSent | internal/smtpsender/sender.go:538-556 | When all workers are done and nothing is queued, every message has been moved to Sent exactly once. |
| LastRecipient.RunsAreBounded | internal/smtpsender/sender.go:288-559 | With all sends succeeding every step uses up work, so every interleaving is finite. |
| LastRecipient.NeverStuck | internal/smtpsender/sender.go:217-230 | Until every row is delivered and every worker through there is a step to take. |
| LastRecipient.EnqueueSafe | internal/smtpsender/sender.go:93-133 | Ids are reused, so a new message keeps the invariant exactly when no worker is about to move a message of the id it is given. |
| LastRecipient.HistorySafe | internal/smtpsender/sender.go:93-559 | Over every interleaving of worker steps and submissions the workers stay safe if and only if no submission is given the id of a message that a worker is about to move. |
| LastRecipient.StaleMoveLosesMail | internal/smtpsender/sender.go:538-556 | A concrete interleaving: two workers past the check, the id reused by a new message in between, and the second move takes the new message to Sent unsent. |
| LastRecipient.StaleMoveReached | internal/smtpsender/sender.go:537-546 | That interleaving happens: a complete run, from one message with two recipients, to the state in which both workers are past the check. |
| Writer.StepInv | internal/storage/sqlite3/sqlite3.go:82-123 | What every step of every interleaving keeps: at most one active worker, `running` exact, every blocked sender served, replies and log in step, the database that of the serial history, results those it gives. |
| Writer.EveryRunIsSerial | internal/storage/sqlite3/sqlite3.go:82-123 | For any number of concurrent calls: each that returns a value ran exactly once with the result it has in the serial history; one whose transaction could not begin never ran and gets the zero reply; tasks run one at a time. |
| Writer.RealTimeOrder | internal/storage/sqlite3/sqlite3.go:82-95 | The serial order respects real time. |
| Writer.AnsweredIsVisible | internal/storage/sqlite3/sqlite3.go:107-118 | When a caller has its result, an error included, its task is in the serial history and the database is already what that history makes of it, for good: only running a task changes the database, neither the commit nor the rollback does. |
| Writer.NeverStuck | internal/storage/sqlite3/sqlite3.go:82-103 | While a call has not returned some step can happen. |
| Writer.EveryCallReturns | internal/storage/sqlite3/sqlite3.go:82-123 | A history of n calls has at most 9n steps, and one that cannot go on has answered every call. |
| Streams.Reader.Read | internal/smtpsender/sender.go:498-499 | The promise of an io.Reader: a prefix of what is left, the end reported with or after the last bytes, progress. |
| Streams.ReadFull | internal/smtpsender/sender.go:158-162 | Exactly the first n bytes, or all of them with the right end condition, and nothing lost. |
| Streams.ReadLimited | internal/storage/sqlite3/table_mails.go:215-219 | The bytes read ahead and what is left are the message. |
| Streams.ReadAll | internal/storage/sqlite3/table_mails.go:228-231 | All that is left, or a failure of the reader. |
| Streams.SendChunks | internal/smtpsender/sender.go:497-530 | The writer receives a prefix of the message, exactly the message on success, and totalSent counts what it received. |
| Bulk.UidsResolve | internal/imapserver/mailbox.go:54-77 | A UID set resolves to exactly the numbers from the start of one of its ranges to its stop, or to the largest live id when that is `*`. |
| Bulk.SequenceNumbersResolve | internal/imapserver/mailbox.go:54-77 | A set of sequence numbers resolves exactly when all the numbers its ranges name, to the stop or to the largest live id, are in 1..count, and to exactly the messages carrying them. |
| Bulk.ResolvedInOrder | internal/imapserver/mailbox.go:56-75 | The result goes range by range, ascending within each, with each number once per range that names it: order and repetitions are determined. |
| Bulk.LoneStar | internal/imapserver/mailbox.go:57-64 | A range from 0 to `*` selects as UIDs everything from 0 to the largest id, and never resolves as sequence numbers. |
| Bulk.DifferentMessages | internal/imapserver/mailbox.go:54-77 | Different sequence numbers give different live messages. |
| Bulk.StarNeedsNoGaps | internal/imapserver/mailbox.go:57-63 | `n:*` on sequence numbers resolves exactly when no id is missing, as its end is taken from the ids. |
| Bulk.CopyExact | internal/imapserver/mailbox.go:369-416 | For every outcome of every task: a bulk copy reports success exactly when every id has a source and no task fails, and then there is one new message per create that was carried out, in order under consecutive ids, with the content of its source and the flags that came through; the originals are unchanged even when it stops half way and when a mailbox is copied into itself. |
| Bulk.CopyReported | internal/imapserver/mailbox.go:379-415 | A copy that reports success has given every id its own copy, content and flags, if and only if every create began and so did the flag write of every message with flags. |
| Bulk.SkippedCopy | internal/imapserver/mailbox.go:379-415 | A copy whose create could not begin makes no message, and its flags go to message 0. |
| Bulk.MoveConserves | internal/imapserver/mailbox.go:422-438 | A bulk move of any list of ids, whichever statements fail and wherever it stops, keeps the store well formed, loses no message, doubles none but the one whose final DELETE failed, and touches only its two mailboxes. |
| Bulk.MoveExact | internal/imapserver/mailbox.go:422-438 | For any list, with gaps and repetitions: it moves exactly the messages before the first id that is refused (no message, moved already, a failing statement), except those whose move did not begin, rows unchanged, to consecutive new ids in order, whatever renumbering happens meanwhile; and the refused one is in both mailboxes exactly if its DELETE failed. |
| Imap.Mailbox.GetIDsFromSeqSet | internal/imapserver/mailbox.go:54-77 | The nested loops compute Resolve, whose result UidsResolve, SequenceNumbersResolve and ResolvedInOrder state. |
| Imap.Mailbox.CopyMessages | internal/imapserver/mailbox.go:369-416 | Computes CopyAll on the ids resolved before the first copy; refused for Outbox. |
| Imap.Mailbox.CopyMessage | internal/imapserver/mailbox.go:380-412 | One message from either tier, then its flags, each task with its three outcomes. |
| Imap.Mailbox.MoveMessages | internal/imapserver/mailbox.go:422-438 | Computes MoveAll on the ids resolved before the first move, for every failing step; refused for Outbox. |
| Imap.Mailbox.CreateMessage | internal/imapserver/mailbox.go:279-329 | Stores exactly the body under the next id, as a file exactly above the threshold; a flag write that fails is reported although the message is stored by then, and it stays with the flags written so far; an error before that, or a task that could not begin, leaves the messages as before. |
| Imap.Mailbox.StoreBody | internal/imapserver/mailbox.go:280-306 | The body in its tier, or nothing. |
| Imap.Mailbox.SetEachFlag | internal/imapserver/mailbox.go:309-326 | The loop over the flags computes WriteFlags. |
| Imap.FlagsWritten | internal/imapserver/mailbox.go:309-326 | The message is left with the flag of the last write carried out before the first that failed, which is the last of all when every write works. |
| Imap.Mailbox.StoreCopy | internal/imapserver/mailbox.go:388-406 | A copy of the content of one row under a new id, from either tier. |
| Imap.FlagsHonoured | internal/imapserver/mailbox.go:309-326 | A new message gets the flags asked for exactly when none of them differs from the last. |
| Imap.AskedFor | internal/imapserver/mailbox.go:311-320 | A flag is asked for exactly by its own name, among any others. |
| SmtpRemote.SessionRemote.Mail | internal/smtpserver/session_remote.go:32-74 | Accepted exactly from the key of the connected node, unless it declares a size above a readable limit. |
| SmtpRemote.SessionRemote.Rcpt | internal/smtpserver/session_remote.go:76-87 | Accepted exactly for addresses of this node's key. |
| SmtpRemote.SessionRemote.Data | internal/smtpserver/session_remote.go:89-253 | Computes Receive on tables and files for every reader and every failing or skipped step. |
| SmtpRemote.StoredIs | internal/smtpserver/session_remote.go:100-173 | The first 10485761 bytes are read ahead and rewritten; what follows them is stored as it came. |
| SmtpRemote.SessionRemote.StoreLarge | internal/smtpserver/session_remote.go:177-206 | The streaming path, with its size check after the file is there. |
| SmtpRemote.SessionRemote.StoreSmall | internal/smtpserver/session_remote.go:210-235 | The in-memory path. |
| SmtpRemote.SessionRemote.WithdrawMessage | internal/smtpserver/session_remote.go:197-198 | Mark, then expunge, errors of either ignored. |
| SmtpRemote.DataOutcome | internal/smtpserver/session_remote.go:89-253 | One DATA, whatever fails: accepted exactly when stored, or never begun and not noticed, and within a readable limit (section 6.1 of RFC 1870); an accepted message is in INBOX under the next id, whole and unmarked, as a file exactly when files are used and both it and what is stored of it exceed the threshold; a rejected one stays exactly if it leaks; of the others only those marked deleted in INBOX may go, exactly when a withdrawal gets through, and every other row and file is as it was. |
| SmtpRemote.DataKeepsValid | internal/smtpserver/session_remote.go:193-206 | A DATA leaves a well-formed store exactly unless a withdrawal removed a file and then its DELETE failed. |
| SmtpRemote.MessagesStay | internal/smtpserver/session_remote.go:32-253 | From any point on, over any number of sessions in any order and any failures: every message not marked deleted in INBOX stays, with its file. |
| SmtpRemote.MessagesSurvive | internal/smtpserver/session_remote.go:32-253 | From a well-formed store: through any such history every message not marked deleted in INBOX keeps its content, date and flags and stays readable. |
| SmtpRemote.AcceptedStays | internal/smtpserver/session_remote.go:89-253 | A message accepted at any point of such a history is in INBOX at its end, readable from its tier, with its content and date, no flags, and no larger than the limit that could be read. |
| SmtpRemote.AcceptedDiffer | internal/smtpserver/session_remote.go:180-253 | Different accepted messages have different ids. |
| SmtpRemote.NothingElse | internal/smtpserver/session_remote.go:89-253 | Every message that is new at the end was accepted, or was rejected and leaked, at one point of the history. |
| SmtpRemote.OneWithin | internal/smtpserver/session_remote.go:193-235 | With every INBOX message within a readable limit, one DATA breaks that exactly when an oversized message was stored and reading it back, marking it or expunging it failed. |
| SmtpRemote.InboxStaysWithin | internal/smtpserver/session_remote.go:89-253 | Under a fixed readable limit INBOX stays within it throughout a history if and only if no DATA leaks in that way. |
| SmtpRemote.SenderIsRemote | internal/smtpserver/session_remote.go:32-74 | Each session reports the sender of its last accepted MAIL, whose key is that of the node at the other end, whatever the other sessions do. |
| SmtpRemote.MailDecides | internal/smtpserver/session_remote.go:41-73 | At any point of a history: a MAIL that declares more than a readable limit, or comes from another key, is refused and changes no session's sender; any other is accepted and becomes its session's. |
| SmtpLocal.SessionLocal.Mail | internal/smtpserver/session_local.go:30-44 | Clears the recipients; accepted exactly for the node's own key. |
| SmtpLocal.SessionLocal.Rcpt | internal/smtpserver/session_local.go:46-49 | Adds a recipient. |
| SmtpLocal.SessionLocal.Reset | internal/smtpserver/session_local.go:116-119 | Clears both fields. |
| SmtpLocal.SessionLocal.Data | internal/smtpserver/session_local.go:51-114 | Over every history of commands: succeeds exactly for a readable message and recipients that can be queued, and then creates one Outbox message and exactly one row per recipient since the last MAIL or RSET whose INSERT began; when storing it never begins nothing is queued, which passes for success only if no INSERT begins either. |
| SmtpLocal.RecipientsSinceClear | internal/smtpserver/session_local.go:30-49 | The recipients are those given since the last MAIL, accepted or not, or RSET. |
| SmtpLocal.ClearedOnce | internal/smtpserver/session_local.go:30-49 | Every history has exactly one point at which the recipients were last cleared. |
| SmtpLocal.SenderSinceReset | internal/smtpserver/session_local.go:30-44 | The sender is that of the last accepted MAIL since the last RSET, and parses to the own key. |
| SmtpLocal.SubmittedByOwner | internal/smtpserver/session_local.go:36-43 | After an accepted MAIL mail goes out in the node's own name. |
| Address.DecodeSpells | internal/utils/address.go:46-49 | A string decodes to some bytes exactly when it is their hex in any letter case. |
| Address.EncodeAt | internal/utils/address.go:27-32 | Each byte of a key prints as two lower-case digits, the high half first. |
| Address.EncodeInjective | internal/smtpsender/sender.go:126 | Different keys have different destinations. |
| Address.ParseSpelled | internal/utils/address.go:34-54 | Every spelling of a key's address parses to the key: digits in any case, either domain in any case, spaces around and after the @. |
| Address.ParseExactly | internal/utils/address.go:34-54 | An address is accepted if and only if, trimmed, it is hex digits, the last `@` and one of the two domains in any case; the key is the digits cut off or padded to 32 bytes. |
| Address.DomainSpelled | internal/utils/address.go:22-25 | The accepted spellings of the two domains, letter by letter. |
| Address.KeyHex | internal/utils/address.go:46-53 | A parsed key prints as 64 lower-case digits that decode to it. |
| Address.ParseCreate | internal/utils/address.go:27-54 | Parsing a created address gives back the key, for every key. |
| Address.CreateParse | internal/utils/address.go:27-54 | On every accepted address, printing the parsed key is a normal form: it parses to the same key again. |
| Address.NormalFormKeepsLocalPart | internal/utils/address.go:46-53 | The normal form keeps the local part, up to case, exactly when that has 64 digits, as the key length is not checked. |
| Address.ShortLocalPartsCollide | internal/utils/address.go:51-53 | Two different short local parts name one key. |

## Left out

- `MailboxRename`: its arguments are bound in the opposite order, and file paths are not rewritten.
- `migrateV1toV2` and the other schema steps: DDL whose effect depends on SQLite.
- `UpdateMessagesFlags`, `ListMessages`: with replacing flags the first dereferences a missing message; the second is mostly MIME code.
- Message headers and bodies: parsing, rewriting and transfer decoding are library code; `rewrite` stands for any of it.
- SQLite itself: locking, type affinity (a moved blob is bound as text, `LENGTH` then counts characters; an empty slice against NULL) and prepared statements. A statement is one atomic update or fails.
- `mobile/`, transport, login, configuration, logging, notifications, the welcome mail: no part of these properties.
- Error strings: `isNetworkError` and `isPermanentError` appear only as the three kinds of error they tell apart.
- Integer widths: ids, sizes and sequence numbers are unbounded; dates and ages are whole seconds; thresholds are not negative.
- Reuse of ids across time: `UidValidity` is constant and ids come back after the last row leaves, so nothing is claimed of section 2.3.1.1 of RFC 3501.
- The reply to the end of DATA: it is ignored by the code, so "delivered" means that all bytes were handed to the DATA writer, as `Sender.Queue.Run` states.
- Storage.SQLite3Storage.MailCreateFromStream: one atomic step, though the next id is read before the writer is entered.
- FileStorage.FileStore.StoreMail: temporary files that a crash leaves behind; a NUL in a mailbox name.
- FileStorage.FileStore.CleanupOrphanedFiles: the walk visits the files in some order, not in lexical order.
- Sender.Queues.QueueFor: the rows are inserted without a run starting in between (`Dispatch` has that interleaving, without the messages).
- Sender.Queue.Run: a queue whose sender has a file store, without which the worker cannot move file rows; and no move to Sent whose final DELETE, or whose move of the file back, fails: `MoveDuplicates` and `MoveKeepsValid` say what those leave.
- Sender.Queue.SettleMessage: the same two failures of the move are excluded.
- Conservation.RunConserves: the same; the last DELETE of a move failing leaves the message in Sent and in Outbox.
- Drain.RunExplained: the same.
- Retention.HistoryStrands: works on messages, so the failures past compensation that `MoveKeepsValid` and `ExpungeKeepsValid` describe are not among its steps; a move or a flag change that fails is no step.
- Trace.HistoryRefines: excludes exactly the failures that lose a file (`HistoryStaysValid`); a row without its file stands for no message.
- LastRecipient.EveryMessageIsSent: messages that are not deleted, not expired and not empty; the expiry and deletion branches are in `Delivery`.
- Imap.Mailbox.GetIDsFromSeqSet: numbers from 2^31 on, which the code truncates to 32 bits, and a stop of 2^32-1, at which its counter wraps.
- Imap.Mailbox.CreateMessage: the date given by the client is ignored by the code and by the model.
- Imap.Mailbox.CopyMessage: a file that cannot be opened counts as a failing create, which has the same effect.
- Bulk.CopyExact: no message has id 0, as ids start at 1.
- Bulk.MoveExact: a mailbox moved into itself by ids that the move itself gives out; `MoveConserves` covers those.
- SmtpRemote.SessionRemote.Data: its storage calls are taken together, and header rewriting replaces what was read ahead by bytes of its choice; RSET and the end of a session do nothing, and when DATA is allowed is the protocol library's matter.
- Writer.AnsweredIsVisible: a task's statements count as one step, so that a reader outside the writer sees all or none of them; the one task with two statements is a move, and the store functions have it statement by statement.
- SmtpLocal.SessionLocal.Data: the protocol library decides when DATA is allowed; every order of commands is covered.
- Largest blob and largest file of the storage statistics.
