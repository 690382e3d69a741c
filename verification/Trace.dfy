// Whole histories of the store: any sequence of operations, each with its own
// failing steps, against the plain map of messages.

module Trace {
  import opened Types
  import opened StoreModel
  import opened Refinement
  import opened Maintenance
  import opened Paths

  datatype Op =
    | CreateMailbox(name: string, fault: Write)
    | DeleteMailbox(name: string, fault: Write)
    | Create(mailbox: string, data: Bytes, now: int, fault: Write)
    | CreateFromStream(mailbox: string, data: Bytes, now: int, streamFaults: StreamFaults)
    | UpdateFlags(key: Key, flags: Flags, fault: Write)
    | MarkDeleted(key: Key, fault: Write)
    | Expunge(mailbox: string, withFiles: bool, expungeFaults: ExpungeFaults)
    | Move(key: Key, destination: string, withFiles: bool, moveFaults: MoveFaults)
    | Migrate(rows: seq<Key>, threshold: nat, migrateFaults: seq<MigrateFault>)
    | Clean(walk: seq<string>, stuck: set<string>)
    | Enqueue(host: string, id: nat, envelope: Envelope, fault: Write)
    | Dequeue(host: string, id: nat, fault: Write)

  /** The answer of an operation that returns no id. */
  function NoId(r: Step<()>): Step<nat> {
    Step(r.store, if r.result.Ok? then Ok(0) else Err(r.result.error))
  }

  /** What the store does. An operation that returns no id returns 0. */
  function Apply(s: Store, op: Op): Step<nat> {
    match op
    case CreateMailbox(name, fault) => NoId(Task(s, StoreModel.CreateMailbox(s, name), fault))
    case DeleteMailbox(name, fault) => NoId(Task(s, StoreModel.DeleteMailbox(s, name), fault))
    case Create(m, data, now, fault) => StoreModel.Create(s, m, data, now, fault)
    case CreateFromStream(m, data, now, f) => StoreModel.CreateFromStream(s, m, data, now, f)
    case UpdateFlags(k, flags, fault) => NoId(Task(s, SetFlags(s, k, flags), fault))
    case MarkDeleted(k, fault) => NoId(Task(s, StoreModel.MarkDeleted(s, k), fault))
    case Expunge(m, withFiles, f) => NoId(StoreModel.Expunge(s, m, withFiles, f))
    case Move(k, destination, withFiles, f) => StoreModel.Move(s, k, destination, withFiles, f)
    case Migrate(rows, threshold, faults) =>
      Step(if |rows| == |faults| then MigrateRows(s, rows, threshold, faults).store else s, Ok(0))
    case Clean(walk, stuck) => Step(s.(files := CleanFiles(s.files, AllFilePaths(s), walk, stuck).files), Ok(0))
    case Enqueue(host, id, envelope, fault) => NoId(InsertQueue(s, host, id, envelope, fault))
    case Dequeue(host, id, fault) => NoId(Task(s, DeleteQueue(s, host, id), fault))
  }

  /** Its transaction could not begin. */
  predicate IsSkipped(op: Op) {
    match op
    case CreateFromStream(_, _, _, f) => f.insert.Skipped?
    case Expunge(_, _, f) => f.begin
    case Move(_, _, _, f) => f.begin
    case Migrate(_, _, _) => false
    case Clean(_, _) => false
    case _ => op.fault.Skipped?
  }

  /** What it should do, given its answer: no tiers, no files. Only a move has an effect when it fails, and only
      when it answers that the source stayed. */
  function Plain(v: View, op: Op, r: Result<nat>): View {
    if IsSkipped(op) then v
    else if op.Move? then if op.key in v.mail then MovedView(v, op.key, op.destination, r) else v
    else if r.Err? then v
    else
      match op
      case CreateMailbox(name, _) => v.(mailboxes := v.mailboxes + {name})
      case DeleteMailbox(name, _) => Emptied(v, name)
      case Create(m, data, now, _) => Put(v, m, Message(data, now, NO_FLAGS))
      case CreateFromStream(m, data, now, _) => Put(v, m, Message(data, now, NO_FLAGS))
      case UpdateFlags(k, flags, _) => Flag(v, k, flags)
      case MarkDeleted(k, _) => Marked(v, k)
      case Expunge(m, _, _) => Expunged(v, m)
      case Enqueue(host, id, envelope, _) => v.(queue := v.queue[QueueKey(host, Key(OUTBOX, id)) := envelope])
      case Dequeue(host, id, _) => v.(queue := v.queue - {QueueKey(host, Key(OUTBOX, id))})
      case _ => v
  }

  /** The id it should return; 0 when it was skipped. */
  function PlainId(v: View, op: Op): nat {
    if IsSkipped(op) then 0
    else
      match op
      case Create(m, _, _, _) => Fresh(v, m).id
      case CreateFromStream(m, _, _, _) => Fresh(v, m).id
      case Move(_, destination, _, _) => Fresh(v, destination).id
      case _ => 0
  }

  /** The mailbox names an operation writes under. */
  function NamesOf(op: Op): set<string> {
    match op
    case CreateMailbox(name, _) => {name}
    case DeleteMailbox(name, _) => {name}
    case Create(m, _, _, _) => {m}
    case CreateFromStream(m, _, _, _) => {m}
    case Move(_, destination, _, _) => {destination}
    case _ => {}
  }

  /** The operation does not fail where no compensation is left. */
  predicate Recoverable(s: Store, op: Op) {
    match op
    case Expunge(m, withFiles, f) => !ExpungeLosesFile(s, m, withFiles, f)
    case Move(k, destination, withFiles, f) => !MoveLosesFile(s, k, destination, withFiles, f)
    case _ => true
  }

  /** An operation keeps the store well formed exactly when it is recoverable, and then acts on the messages as the
      plain map operation does. */
  lemma StepRefines(s: Store, names: set<string>, op: Op)
    requires Valid(s) && Fits(s, names) && NamesOf(op) <= names
    ensures var r := Apply(s, op);
      && (Valid(r.store) <==> Recoverable(s, op))
      && (Recoverable(s, op) ==>
            && Fits(r.store, names)
            && ViewOf(r.store) == Plain(ViewOf(s), op, r.result)
            && (r.result.Ok? ==> r.result.value == PlainId(ViewOf(s), op)))
  {
    hide Valid, MessageOf, Distinct;
    match op {
      case CreateMailbox(name, _) => MailboxesRefine(s, names, name);
      case DeleteMailbox(name, _) => MailboxesRefine(s, names, name);
      case Create(m, data, now, fault) => CreateRefines(s, m, data, now, fault);
      case CreateFromStream(m, data, now, f) => CreateFromStreamRefines(s, names, m, data, now, f);
      case UpdateFlags(k, flags, _) => FlagsRefine(s, k, flags);
      case MarkDeleted(k, _) => FlagsRefine(s, k, NO_FLAGS);
      case Expunge(m, withFiles, f) => ExpungeStep(s, names, op);
      case Move(k, destination, withFiles, f) => MoveStep(s, names, op);
      case Migrate(rows, threshold, faults) =>
        if |rows| == |faults| {
          MigrationRefines(s, names, rows, threshold, faults);
        }
      case Clean(walk, stuck) => CleanRefines(s, walk, stuck);
      case Enqueue(host, id, envelope, fault) => QueueStep(s, op);
      case Dequeue(host, id, fault) => QueueStep(s, op);
    }
  }

  lemma ExpungeStep(s: Store, names: set<string>, op: Op)
    requires Valid(s) && Fits(s, names) && op.Expunge?
    ensures Valid(Apply(s, op).store) <==> Recoverable(s, op)
    ensures Recoverable(s, op) ==>
      Fits(Apply(s, op).store, names) && ViewOf(Apply(s, op).store) == Plain(ViewOf(s), op, Apply(s, op).result)
  {
    hide Valid, ViewOf, Distinct;
    ExpungeKeepsValid(s, op.mailbox, op.withFiles, op.expungeFaults);
    if Recoverable(s, op) {
      ExpungeRefines(s, op.mailbox, op.withFiles, op.expungeFaults);
    }
  }

  lemma MoveStep(s: Store, names: set<string>, op: Op)
    requires Valid(s) && Fits(s, names) && op.Move? && op.destination in names
    ensures Valid(Apply(s, op).store) <==> Recoverable(s, op)
    ensures Recoverable(s, op) ==>
      && Fits(Apply(s, op).store, names)
      && ViewOf(Apply(s, op).store) == Plain(ViewOf(s), op, Apply(s, op).result)
      && (Apply(s, op).result.Ok? ==> Apply(s, op).result.value == PlainId(ViewOf(s), op))
  {
    hide MoveLosesFile, Movable, RelPath, Distinct, RowOk, Exclusive, References;
    MoveKeepsValid(s, names, op.key, op.destination, op.withFiles, op.moveFaults);
    MoveMailboxes(s, op.key, op.destination, op.withFiles, op.moveFaults);
    if Recoverable(s, op) {
      MoveRefines(s, names, op.key, op.destination, op.withFiles, op.moveFaults);
      assert ViewOf(s).mail.Keys == s.mails.Keys;
    }
  }

  lemma QueueStep(s: Store, op: Op)
    requires Valid(s) && (op.Enqueue? || op.Dequeue?)
    ensures var r := Apply(s, op);
      Valid(r.store) && r.store.mailboxes == s.mailboxes && ViewOf(r.store) == Plain(ViewOf(s), op, r.result)
  {
    hide RelPath, RowOk, Exclusive, References;
    if op.Enqueue? {
      QueueRefines(s, op.host, op.id, op.envelope, op.fault);
    } else {
      QueueRefines(s, op.host, op.id, Envelope("", ""), Succeeds);
    }
  }

  /** When a move succeeds: it never began, or every step it takes for a message of that tier works. */
  predicate MoveAccepted(s: Store, k: Key, destination: string, withFiles: bool, f: MoveFaults) {
    f.begin ||
    (&& !f.read && !f.insert && !f.delete && k in s.mails && destination in s.mailboxes
     && (s.mails[k].mailFile.Some? ==> withFiles && !f.nextId && !f.rename)
     && (s.mails[k].mail.Some? ==> s.mails[k].mail.value != []))
  }

  /** When an operation answers without an error. */
  predicate Accepted(s: Store, op: Op) {
    match op
    case Create(m, _, _, fault) => fault.Skipped? || (fault.Succeeds? && m in s.mailboxes)
    case CreateFromStream(m, data, _, f) =>
      && !f.read && (|data| >= 10485760 ==> !f.nextId && !f.store)
      && (f.insert.Skipped? || (f.insert.Succeeds? && m in s.mailboxes))
    case Expunge(_, withFiles, f) => f.begin || (!f.delete && !(withFiles && f.query))
    case Move(k, destination, withFiles, f) => MoveAccepted(s, k, destination, withFiles, f)
    case Enqueue(host, id, _, fault) =>
      || fault.Skipped?
      || (fault.Succeeds? && Key(OUTBOX, id) in s.mails && QueueKey(host, Key(OUTBOX, id)) !in s.queue)
    case Migrate(_, _, _) => true
    case Clean(_, _) => true
    case _ => !op.fault.Fails?
  }

  lemma MoveAnswers(s: Store, k: Key, destination: string, withFiles: bool, f: MoveFaults)
    requires Valid(s)
    ensures StoreModel.Move(s, k, destination, withFiles, f).result.Ok?
      <==> MoveAccepted(s, k, destination, withFiles, f)
  {
    hide RelPath, Exclusive, References, DeleteMails;
    if k in s.mails {
      assert RowOk(s, k);
      RelPathAccepted(k.mailbox, k.id);
    }
  }

  /** And so does the store: an operation fails exactly for a failing step, or a message, mailbox or row that is not
      there or there already. */
  lemma StepAnswers(s: Store, op: Op)
    requires Valid(s)
    ensures Apply(s, op).result.Ok? <==> Accepted(s, op)
  {
    hide RelPath, Valid, StoreModel.Move, MoveAccepted, DeleteMails, MigrateRows, CleanFiles;
    if op.Move? {
      MoveAnswers(s, op.key, op.destination, op.withFiles, op.moveFaults);
    }
  }

  /** The background operations, which no message shows: a migration leaves only the blobs that failed above the
      threshold, and a sweep that meets no stuck orphan leaves none. */
  lemma StepMaintains(s: Store, op: Op)
    ensures op.Migrate? && |op.rows| == |op.migrateFaults| ==>
      LargeSizes(Apply(s, op).store, op.threshold) == LargeSizes(s, op.threshold) - Done(op.rows, op.migrateFaults)
    ensures op.Clean? && (forall p :: p in op.walk && p in op.stuck && p in s.files && IsEml(p) ==> Named(s, p)) ==>
      forall p :: p in op.walk && p in Apply(s, op).store.files && IsEml(p) ==> Named(s, p)
  {
    hide IsEml, RelPath;
    if op.Migrate? && |op.rows| == |op.migrateFaults| {
      MigrationLeaves(s, op.rows, op.threshold, op.migrateFaults);
    }
    if op.Clean? {
      CleanRemoves(s.files, AllFilePaths(s), op.walk, op.stuck);
      forall p ensures p in AllFilePaths(s) <==> Named(s, p) {
        if k :| k in s.mails && s.mails[k].mailFile == Some(p) {
          assert p in AllFilePaths(s);
        }
      }
    }
  }

  predicate Named(s: Store, path: string) {
    exists k :: k in s.mails && s.mails[k].mailFile == Some(path)
  }

  /** The store and the results after a history. */
  datatype History = History(store: Store, results: seq<Result<nat>>)

  function Run(s: Store, ops: seq<Op>): (h: History)
    ensures |h.results| == |ops|
  {
    if ops == [] then History(s, [])
    else
      var h := Run(s, ops[..|ops| - 1]);
      var r := Apply(h.store, ops[|ops| - 1]);
      History(r.store, h.results + [r.result])
  }

  function PlainRun(v: View, ops: seq<Op>, results: seq<Result<nat>>): View
    requires |ops| == |results|
  {
    if ops == [] then v
    else
      var n := |ops| - 1;
      Plain(PlainRun(v, ops[..n], results[..n]), ops[n], results[n])
  }

  ghost predicate AllRecoverable(s: Store, ops: seq<Op>) {
    forall i :: 0 <= i < |ops| ==> Recoverable(Run(s, ops[..i]).store, ops[i])
  }

  /** The two-tier store refines the plain map: after every history of operations that could recover from their failures
      each row is exactly one of blob or file with the right size, every file row names its own existing file, and the
      messages are those of the plain map driven by the same operations and answers; every id returned is the plain
      map's. */
  lemma {:induction false} HistoryRefines(s: Store, names: set<string>, ops: seq<Op>)
    requires Valid(s) && Fits(s, names) && forall i :: 0 <= i < |ops| ==> NamesOf(ops[i]) <= names
    requires AllRecoverable(s, ops)
    ensures var h := Run(s, ops);
      && Valid(h.store) && Fits(h.store, names)
      && ViewOf(h.store) == PlainRun(ViewOf(s), ops, h.results)
      && forall i :: 0 <= i < |ops| && h.results[i].Ok? ==>
           h.results[i].value == PlainId(PlainRun(ViewOf(s), ops[..i], h.results[..i]), ops[i])
  {
    hide Valid, Fits, ViewOf, Plain, PlainId, Apply, Recoverable;
    if ops != [] {
      var n := |ops| - 1;
      var before := ops[..n];
      forall i | 0 <= i < n ensures Recoverable(Run(s, before[..i]).store, before[i]) {
        assert before[..i] == ops[..i];
      }
      HistoryRefines(s, names, before);
      var h, g := Run(s, ops), Run(s, before);
      StepRefines(g.store, names, ops[n]);
      assert h.results[..n] == g.results;
      forall i | 0 <= i < |ops| && h.results[i].Ok?
        ensures h.results[i].value == PlainId(PlainRun(ViewOf(s), ops[..i], h.results[..i]), ops[i])
      {
        if i < n {
          assert before[..i] == ops[..i] && g.results[..i] == h.results[..i];
          assert before[i] == ops[i] && g.results[i] == h.results[i];
        }
      }
    }
  }

  /** The condition is exact: a history passes only through well-formed stores if and only if each of its operations
      recovers from its failures. */
  lemma HistoryStaysValid(s: Store, names: set<string>, ops: seq<Op>)
    requires Valid(s) && Fits(s, names) && forall i :: 0 <= i < |ops| ==> NamesOf(ops[i]) <= names
    ensures (forall i :: 0 <= i <= |ops| ==> Valid(Run(s, ops[..i]).store)) <==> AllRecoverable(s, ops)
  {
    hide Valid, Fits, Recoverable, Apply;
    if AllRecoverable(s, ops) {
      forall i | 0 <= i <= |ops| ensures Valid(Run(s, ops[..i]).store) {
        PrefixRecoverable(s, ops, i);
        HistoryRefines(s, names, ops[..i]);
      }
    } else {
      FirstUnrecoverable(s, names, ops);
    }
  }

  lemma PrefixRecoverable(s: Store, ops: seq<Op>, n: nat)
    requires AllRecoverable(s, ops) && n <= |ops|
    ensures AllRecoverable(s, ops[..n])
  {
    forall i | 0 <= i < n ensures Recoverable(Run(s, ops[..n][..i]).store, ops[..n][i]) {
      assert ops[..n][..i] == ops[..i];
    }
  }

  lemma {:induction false} ResultAt(s: Store, ops: seq<Op>, i: nat)
    requires i < |ops|
    ensures Run(s, ops).results[i] == Apply(Run(s, ops[..i]).store, ops[i]).result
  {
    hide Apply;
    var n := |ops| - 1;
    if i < n {
      ResultAt(s, ops[..n], i);
      assert ops[..n][..i] == ops[..i];
    }
  }

  /** Every answer in such a history is the one StepAnswers gives at that point. */
  lemma HistoryAnswers(s: Store, names: set<string>, ops: seq<Op>, i: nat)
    requires Valid(s) && Fits(s, names) && forall i :: 0 <= i < |ops| ==> NamesOf(ops[i]) <= names
    requires AllRecoverable(s, ops) && i < |ops|
    ensures Run(s, ops).results[i].Ok? <==> Accepted(Run(s, ops[..i]).store, ops[i])
  {
    hide Valid, Fits, Recoverable, Apply, Accepted;
    ResultAt(s, ops, i);
    PrefixRecoverable(s, ops, i);
    HistoryRefines(s, names, ops[..i]);
    StepAnswers(Run(s, ops[..i]).store, ops[i]);
  }

  lemma {:induction false} FirstUnrecoverable(s: Store, names: set<string>, ops: seq<Op>)
    requires Valid(s) && Fits(s, names) && forall i :: 0 <= i < |ops| ==> NamesOf(ops[i]) <= names
    requires !AllRecoverable(s, ops)
    ensures exists i :: 0 <= i <= |ops| && !Valid(Run(s, ops[..i]).store)
  {
    hide Valid, Fits, Recoverable, Apply;
    var n := |ops| - 1;
    if AllRecoverable(s, ops[..n]) {
      HistoryRefines(s, names, ops[..n]);
      assert !Recoverable(Run(s, ops[..n]).store, ops[n]) by {
        forall i | 0 <= i < n ensures Recoverable(Run(s, ops[..i]).store, ops[i]) {
          assert ops[..n][..i] == ops[..i] && ops[..n][i] == ops[i];
        }
      }
      StepRefines(Run(s, ops[..n]).store, names, ops[n]);
      assert ops[..|ops|] == ops;
      assert !Valid(Run(s, ops[..|ops|]).store);
    } else {
      FirstUnrecoverable(s, names, ops[..n]);
      var i :| 0 <= i <= n && !Valid(Run(s, ops[..n][..i]).store);
      assert ops[..n][..i] == ops[..i];
    }
  }
}
