// The two-tier mail store as a function of its state: what each statement
// sequence of table_mails.go, table_mailboxes.go and table_queue.go, together
// with the file operations of filestore.go, makes of the tables and the files.
// A fault argument says which of its steps fail.

module StoreModel {
  import opened Types
  import opened Paths

  datatype Step<+T> = Step(store: Store, result: Result<T>)

  function PathOf(k: Key): string {
    RelPath(k.mailbox, k.id)
  }

  // ----- What a well-formed store is -----

  /** The CHECK constraint, and what the size and path columns promise. */
  predicate RowOk(s: Store, k: Key)
    requires k in s.mails
  {
    var row := s.mails[k];
    match (row.mail, row.mailFile)
    case (Some(data), None) => row.size == |data|
    case (None, Some(path)) =>
      path == PathOf(k) && path in s.files && row.size == |s.files[path]| && s.files[path] != []
    case _ => false
  }

  /** Foreign keys of `mails` and `queue`; the only INSERT into queue names Outbox. */
  predicate References(s: Store) {
    && (forall k :: k in s.mails ==> k.mailbox in s.mailboxes)
    && (forall q :: q in s.queue ==> q.mail in s.mails && q.mail.mailbox == OUTBOX)
  }

  predicate ShareFile(s: Store, j: Key, k: Key)
    requires j in s.mails && k in s.mails
  {
    s.mails[j].mailFile.Some? && s.mails[j].mailFile == s.mails[k].mailFile
  }

  /** No two rows share a file. */
  predicate Exclusive(s: Store) {
    forall j, k :: j in s.mails && k in s.mails && j != k ==> !ShareFile(s, j, k)
  }

  predicate Valid(s: Store) {
    References(s) && Exclusive(s) && forall k :: k in s.mails ==> RowOk(s, k)
  }

  /** Mailbox names that do not share a directory. */
  predicate Distinct(names: set<string>) {
    forall m, n :: m in names && n in names && Sanitize(m) == Sanitize(n) ==> m == n
  }

  predicate Fits(s: Store, names: set<string>) {
    s.mailboxes <= names && Distinct(names)
  }

  // ----- What a store stands for -----

  function ContentOf(s: Store, k: Key): Bytes
    requires k in s.mails && RowOk(s, k)
  {
    if s.mails[k].mail.Some? then s.mails[k].mail.value else s.files[s.mails[k].mailFile.value]
  }

  function MessageOf(s: Store, k: Key): Message
    requires k in s.mails && RowOk(s, k)
  {
    Message(ContentOf(s, k), s.mails[k].date, s.mails[k].flags)
  }

  function ViewOf(s: Store): View
    requires Valid(s)
  {
    View(s.mailboxes, map k | k in s.mails :: MessageOf(s, k), s.queue)
  }

  // ----- Statements on the tables -----

  function BlobRow(data: Bytes, date: int): Row {
    Row(Some(data), None, |data|, date, NO_FLAGS)
  }

  function FileRow(path: string, size: nat, date: int): Row {
    Row(None, Some(path), size, date, NO_FLAGS)
  }

  function FreshKey(s: Store, mailbox: string): Key {
    Key(mailbox, NextId(s.mails.Keys, mailbox))
  }

  /** INSERT INTO mails with id = IFNULL(MAX(id)+1, 1); refused without a mailbox row. */
  function InsertMail(s: Store, mailbox: string, row: Row, fault: bool): Step<nat> {
    if fault || mailbox !in s.mailboxes then Step(s, Err(StorageError))
    else
      var k := FreshKey(s, mailbox);
      Step(s.(mails := s.mails[k := row]), Ok(k.id))
  }

  /** DELETE FROM mails, and the cascade into queue. */
  function DeleteMails(s: Store, ks: set<Key>): Store {
    s.(mails := s.mails - ks, queue := map q | q in s.queue && q.mail !in ks :: s.queue[q])
  }

  function DeletedIn(s: Store, mailbox: string): set<Key> {
    set k | k in s.mails && k.mailbox == mailbox && s.mails[k].flags.deleted
  }

  function SetFlags(s: Store, k: Key, flags: Flags): Store {
    if k in s.mails then s.(mails := s.mails[k := s.mails[k].(flags := flags)]) else s
  }

  /** UPDATE mails SET deleted = 1. */
  function MarkDeleted(s: Store, k: Key): Store {
    if k in s.mails then SetFlags(s, k, s.mails[k].flags.(deleted := true)) else s
  }

  function CreateMailbox(s: Store, name: string): Store {
    s.(mailboxes := s.mailboxes + {name})
  }

  function DeleteMailbox(s: Store, name: string): Store {
    DeleteMails(s, set k | k in s.mails && k.mailbox == name).(mailboxes := s.mailboxes - {name})
  }

  /** A task of one statement that takes s to t. */
  function Task(s: Store, t: Store, fault: Write): Step<()> {
    match fault
    case Succeeds => Step(t, Ok(()))
    case Fails => Step(s, Err(StorageError))
    case Skipped => Step(s, Ok(()))
  }

  /** INSERT INTO queue: primary key and foreign key. */
  function InsertQueue(s: Store, destination: string, id: nat, envelope: Envelope, fault: Write): Step<()> {
    var q := QueueKey(destination, Key(OUTBOX, id));
    if fault.Succeeds? && (q in s.queue || q.mail !in s.mails) then Step(s, Err(StorageError))
    else Task(s, s.(queue := s.queue[q := envelope]), fault)
  }

  function DeleteQueue(s: Store, destination: string, id: nat): Store {
    s.(queue := s.queue - {QueueKey(destination, Key(OUTBOX, id))})
  }

  // ----- Operations that touch both tiers -----

  datatype StreamFaults = StreamFaults(read: bool, nextId: bool, store: bool, insert: Write, remove: bool)

  const NO_STREAM_FAULTS := StreamFaults(false, false, false, Succeeds, false)

  /** The task that inserts one row; a skipped one leaves the caller with id 0. */
  function InsertTask(s: Store, mailbox: string, row: Row, fault: Write): Step<nat> {
    if fault.Skipped? then Step(s, Ok(0)) else InsertMail(s, mailbox, row, fault.Fails?)
  }

  /** MailCreate. */
  function Create(s: Store, mailbox: string, data: Bytes, now: int, fault: Write): Step<nat> {
    InsertTask(s, mailbox, BlobRow(data, now), fault)
  }

  /** MailCreateFromStream, on a stream holding `data`. */
  function CreateFromStream(s: Store, mailbox: string, data: Bytes, now: int, f: StreamFaults): Step<nat> {
    if f.read then Step(s, Err(ReadError))
    else if |data| < SMALL_MESSAGE_THRESHOLD then Create(s, mailbox, data, now, f.insert)
    else if f.nextId then Step(s, Err(StorageError))
    else if f.store then Step(s, Err(FileError))
    else
      var path := PathOf(FreshKey(s, mailbox));
      var stored := s.(files := s.files[path := data]);
      var inserted := InsertTask(stored, mailbox, FileRow(path, |data|, now), f.insert);
      if inserted.result.Ok? then inserted
      else Step(if f.remove then stored else stored.(files := stored.files - {path}), Err(StorageError))
  }

  datatype MoveFaults = MoveFaults(
    begin: bool, read: bool, nextId: bool, rename: bool, insert: bool, renameBack: bool, delete: bool)

  const NO_MOVE_FAULTS := MoveFaults(false, false, false, false, false, false, false)

  /** os.Rename of a file that exists. */
  function RenameFile(s: Store, source: string, target: string): Store
    requires source in s.files
  {
    s.(files := (s.files - {source})[target := s.files[source]])
  }

  /** MailMoveWithFileStore; without a file store only blobs can move. */
  function Move(s: Store, k: Key, destination: string, withFiles: bool, f: MoveFaults): Step<nat> {
    if f.begin then Step(s, Ok(0))
    else if f.read then Step(s, Err(StorageError))
    else if k !in s.mails then Step(s, Err(NotFound))
    else
      var row := s.mails[k];
      var hasFile := withFiles && row.mailFile.Some? && row.mailFile.value != "";
      var path := PathOf(FreshKey(s, destination));
      if hasFile && f.nextId then Step(s, Err(StorageError))
      else if hasFile && (f.rename || HasDotDot(row.mailFile.value) || row.mailFile.value !in s.files) then
        Step(s, Err(FileError))
      else
        var renamed := if hasFile then RenameFile(s, row.mailFile.value, path) else s;
        if row.mail.Some? && row.mail.value != [] then
          FinishMove(renamed, k, destination, row.(mailFile := None), f, hasFile, path)
        else if hasFile then
          FinishMove(renamed, k, destination, row.(mail := None, mailFile := Some(path)), f, hasFile, path)
        else Step(s, Err(NoContent))
  }

  /** Insert the row under its new key, then delete the old one; on a failed insert move the file back. */
  function FinishMove(s: Store, k: Key, destination: string, row: Row, f: MoveFaults, hasFile: bool,
                      path: string): Step<nat>
    requires hasFile ==> path in s.files
  {
    var inserted := InsertMail(s, destination, row, f.insert);
    if inserted.result.Err? then
      Step(if hasFile && !f.renameBack then RenameFile(s, path, PathOf(k)) else s, Err(StorageError))
    else if f.delete then Step(inserted.store, Err(SourceKept))
    else Step(DeleteMails(inserted.store, {k}), inserted.result)
  }

  /** `stuck` holds the paths that os.Remove cannot remove. */
  datatype ExpungeFaults = ExpungeFaults(begin: bool, query: bool, stuck: set<string>, delete: bool)

  const NO_EXPUNGE_FAULTS := ExpungeFaults(false, false, {}, false)

  function FilesOf(s: Store, ks: set<Key>): set<string> {
    set k | k in ks && k in s.mails && s.mails[k].mailFile.Some? :: s.mails[k].mailFile.value
  }

  /** DeleteMail refuses paths with "..". */
  function Removable(paths: set<string>, stuck: set<string>): set<string> {
    set p | p in paths && p !in stuck && !HasDotDot(p)
  }

  /** MailExpungeWithFileStore: files first when a file store is given, then the rows. */
  function Expunge(s: Store, mailbox: string, withFiles: bool, f: ExpungeFaults): Step<()> {
    var ks := DeletedIn(s, mailbox);
    if f.begin then Step(s, Ok(()))
    else if withFiles && f.query then Step(s, Err(StorageError))
    else
      var cleared := if withFiles then s.(files := s.files - Removable(FilesOf(s, ks), f.stuck)) else s;
      if f.delete then Step(cleared, Err(StorageError)) else Step(DeleteMails(cleared, ks), Ok(()))
  }

  // ----- The same operations on the plain map of messages -----

  function Fresh(v: View, mailbox: string): Key {
    Key(mailbox, NextId(v.mail.Keys, mailbox))
  }

  function Put(v: View, mailbox: string, msg: Message): View {
    v.(mail := v.mail[Fresh(v, mailbox) := msg])
  }

  function Drop(v: View, ks: set<Key>): View {
    v.(mail := v.mail - ks, queue := map q | q in v.queue && q.mail !in ks :: v.queue[q])
  }

  function Transfer(v: View, k: Key, destination: string): View
    requires k in v.mail
  {
    Drop(Put(v, destination, v.mail[k]), {k})
  }

  function Flag(v: View, k: Key, flags: Flags): View {
    if k in v.mail then v.(mail := v.mail[k := v.mail[k].(flags := flags)]) else v
  }

  function Marked(v: View, k: Key): View {
    if k in v.mail then Flag(v, k, v.mail[k].flags.(deleted := true)) else v
  }

  /** Deleting a mailbox, with the cascade into mails and from there into queue. */
  function Emptied(v: View, mailbox: string): View {
    Drop(v, set k | k in v.mail && k.mailbox == mailbox).(mailboxes := v.mailboxes - {mailbox})
  }

  function Expunged(v: View, mailbox: string): View {
    Drop(v, set k | k in v.mail && k.mailbox == mailbox && v.mail[k].flags.deleted)
  }
}
