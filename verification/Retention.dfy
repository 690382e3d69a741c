// No stranded mail, over whole histories of the node: everything that touches
// Outbox or the queue, and exactly which steps leave a message behind that
// nothing will ever send or remove.

module Retention {
  import opened Types
  import opened StoreModel
  import opened Delivery
  import opened Conservation
  import opened Drain
  import Enqueue

  datatype Op =
    | Submit(from: string, rcpts: seq<string>, content: Bytes, now: int, unwrap: Enqueue.Unwrap,
             create: Write, inserts: Enqueue.Inserts)
    | RunQueue(destination: string, self: bool, refs: seq<nat>, attempts: seq<Attempt>, expunge: Write)
    | Append(mailbox: string, msg: Message)     // a message received, appended or copied
    | SetFlags(key: Key, flags: Flags)
    | Expunge(mailbox: string)
    | Move(key: Key, destination: string)
    | CreateMailbox(name: string)
    | DeleteMailbox(name: string)

  ghost predicate Possible(v: View, op: Op) {
    match op
    case RunQueue(destination, _, refs, attempts, _) => ListedRun(v, destination, refs, attempts)
    case Append(mailbox, _) => mailbox in v.mailboxes
    case Move(k, destination) => k in v.mail && destination in v.mailboxes
    case _ => true
  }

  ghost function Apply(v: View, op: Op): View
    requires Possible(v, op)
  {
    match op
    case Submit(from, rcpts, content, now, unwrap, create, inserts) =>
      Enqueue.QueueFor(v, from, rcpts, content, now, unwrap, create, inserts).view
    case RunQueue(destination, self, refs, attempts, expunge) => AfterRun(v, destination, self, refs, attempts, expunge)
    case Append(mailbox, msg) => Put(v, mailbox, msg)
    case SetFlags(k, flags) => Flag(v, k, flags)
    case Expunge(mailbox) => Expunged(v, mailbox)
    case Move(k, destination) => Transfer(v, k, destination)
    case CreateMailbox(name) => v.(mailboxes := v.mailboxes + {name})
    case DeleteMailbox(name) => Emptied(v, name)
  }

  /** The steps that leave nothing stranded. */
  ghost predicate Harmless(v: View, op: Op)
    requires Possible(v, op)
  {
    match op
    case Submit(_, rcpts, _, _, unwrap, create, inserts) =>
      create.Succeeds? && OUTBOX in v.mailboxes ==> Enqueue.OpensRow(rcpts, unwrap, inserts)
    case RunQueue(destination, self, refs, attempts, _) => NoneStrands(v, destination, self, refs, attempts)
    case Append(mailbox, msg) => mailbox != OUTBOX || msg.flags.deleted
    case SetFlags(k, flags) => k in v.mail && k.mailbox == OUTBOX && v.mail[k].flags.deleted && !Pending(v, k.id) ==>
      flags.deleted
    case Move(k, destination) => destination != OUTBOX || v.mail[k].flags.deleted
    case _ => true
  }

  // ----- One step -----

  /** Removing messages, and with them their rows, strands none. */
  lemma DropKeeps(v: View, ks: set<Key>)
    requires QueueOk(v) && NoStranded(v)
    ensures QueueOk(Drop(v, ks)) && NoStranded(Drop(v, ks))
  {
    forall id ensures !Stranded(Drop(v, ks), id) {
      assert !Stranded(v, id);
      if Live(Drop(v, ks), id) {
        var q :| q in v.queue && q.mail == Key(OUTBOX, id);
        assert q in Drop(v, ks).queue;
      }
    }
  }

  /** A new message strands exactly if it is a live one in Outbox: it comes without a row. */
  lemma PutKeeps(v: View, mailbox: string, msg: Message)
    requires QueueOk(v) && NoStranded(v)
    ensures QueueOk(Put(v, mailbox, msg))
    ensures NoStranded(Put(v, mailbox, msg)) <==> mailbox != OUTBOX || msg.flags.deleted
  {
    var w, k := Put(v, mailbox, msg), Fresh(v, mailbox);
    assert k !in v.mail.Keys;
    forall id | Key(OUTBOX, id) != k ensures !Stranded(w, id) {
      assert !Stranded(v, id);
    }
    if mailbox == OUTBOX && !msg.flags.deleted {
      assert Stranded(w, k.id);
    }
  }

  lemma FlagKeeps(v: View, k: Key, flags: Flags)
    requires QueueOk(v) && NoStranded(v)
    ensures QueueOk(Flag(v, k, flags))
    ensures NoStranded(Flag(v, k, flags)) <==> Harmless(v, SetFlags(k, flags))
  {
    var w := Flag(v, k, flags);
    forall id | Key(OUTBOX, id) != k ensures !Stranded(w, id) {
      assert !Stranded(v, id);
    }
    if k.mailbox == OUTBOX {
      assert !Stranded(v, k.id);
      assert Key(OUTBOX, k.id) == k;
      assert Pending(w, k.id) <==> Pending(v, k.id);
      assert Stranded(w, k.id) <==> !Harmless(v, SetFlags(k, flags));
    }
  }

  lemma MoveKeeps(v: View, k: Key, destination: string)
    requires QueueOk(v) && NoStranded(v) && k in v.mail
    ensures QueueOk(Transfer(v, k, destination))
    ensures NoStranded(Transfer(v, k, destination)) <==> destination != OUTBOX || v.mail[k].flags.deleted
  {
    var put, to := Put(v, destination, v.mail[k]), Fresh(v, destination);
    PutKeeps(v, destination, v.mail[k]);
    if destination != OUTBOX || v.mail[k].flags.deleted {
      DropKeeps(put, {k});
    } else {
      assert to !in v.mail.Keys;
      assert Stranded(Transfer(v, k, destination), to.id);
    }
  }

  lemma SubmitKeeps(v: View, op: Op)
    requires QueueOk(v) && NoStranded(v) && op.Submit?
    ensures QueueOk(Apply(v, op)) && (NoStranded(Apply(v, op)) <==> Harmless(v, op))
  {
    hide Enqueue.Parses, Enqueue.OpensRow, Enqueue.Deliverable, Enqueue.RowFor;
    if op.create.Succeeds? {
      Enqueue.QueueForExact(v, op.from, op.rcpts, op.content, op.now, op.unwrap, op.inserts);
    } else if op.create.Skipped? {
      Enqueue.InsertRowsOnlyAdds(v, 0, op.from, op.rcpts, op.unwrap, op.inserts);
      RowsKeep(v, Apply(v, op));
    }
  }

  /** More rows strand nothing. */
  lemma RowsKeep(v: View, w: View)
    requires QueueOk(v) && NoStranded(v) && w.mail == v.mail
    requires forall q :: q in v.queue ==> q in w.queue
    requires forall q :: q in w.queue && q !in v.queue ==> q.mail in v.mail && q.mail.mailbox == OUTBOX
    ensures QueueOk(w) && NoStranded(w)
  {
    forall id ensures !Stranded(w, id) {
      assert !Stranded(v, id);
      if Live(w, id) {
        var q :| q in v.queue && q.mail == Key(OUTBOX, id);
        assert q in w.queue;
      }
    }
  }

  lemma RunKeeps(v: View, op: Op)
    requires QueueOk(v) && NoStranded(v) && op.RunQueue? && Possible(v, op)
    ensures QueueOk(Apply(v, op)) && (NoStranded(Apply(v, op)) <==> Harmless(v, op))
  {
    hide Strands, StoppedBefore, NoStranded;
    RunStrands(v, op.destination, op.self, op.refs, op.attempts, op.expunge);
    RunConserves(v, op.destination, op.self, op.refs, op.attempts, 0, false, op.expunge);
  }

  /** From a state without stranded mail, a step strands a message exactly if it is not harmless. */
  lemma StepKeeps(v: View, op: Op)
    requires QueueOk(v) && NoStranded(v) && Possible(v, op)
    ensures QueueOk(Apply(v, op)) && (NoStranded(Apply(v, op)) <==> Harmless(v, op))
  {
    hide QueueOk, NoStranded, ListedRun, Strands, StoppedBefore, Enqueue.OpensRow, Pending;
    match op {
      case Submit(_, _, _, _, _, _, _) => SubmitKeeps(v, op);
      case RunQueue(_, _, _, _, _) => RunKeeps(v, op);
      case Append(mailbox, msg) => PutKeeps(v, mailbox, msg);
      case SetFlags(k, flags) => FlagKeeps(v, k, flags);
      case Expunge(mailbox) => DropKeeps(v, set k | k in v.mail && k.mailbox == mailbox && v.mail[k].flags.deleted);
      case Move(k, destination) => MoveKeeps(v, k, destination);
      case CreateMailbox(name) => NamesKeep(v, v.mailboxes + {name});
      case DeleteMailbox(name) =>
        var ks := set k | k in v.mail && k.mailbox == name;
        DropKeeps(v, ks);
        NamesKeep(Drop(v, ks), v.mailboxes - {name});
    }
  }

  lemma NamesKeep(v: View, mailboxes: set<string>)
    requires QueueOk(v) && NoStranded(v)
    ensures QueueOk(v.(mailboxes := mailboxes)) && NoStranded(v.(mailboxes := mailboxes))
  {
    forall id ensures !Stranded(v.(mailboxes := mailboxes), id) {
      assert !Stranded(v, id);
    }
  }

  // ----- Histories -----

  ghost predicate IsHistory(states: seq<View>, ops: seq<Op>) {
    && |states| == |ops| + 1
    && forall i :: 0 <= i < |ops| ==> Possible(states[i], ops[i]) && states[i + 1] == Apply(states[i], ops[i])
  }

  /** However the node is used, Outbox stays free of stranded mail exactly as long as every step is harmless. */
  lemma {:induction false} HistoryStrands(states: seq<View>, ops: seq<Op>, n: nat)
    requires IsHistory(states, ops) && n <= |ops| && QueueOk(states[0]) && NoStranded(states[0])
    ensures (forall i :: 0 <= i <= n ==> NoStranded(states[i])) <==>
      forall i :: 0 <= i < n ==> Harmless(states[i], ops[i])
    ensures (forall i :: 0 <= i <= n ==> NoStranded(states[i])) ==> QueueOk(states[n])
  {
    hide QueueOk, NoStranded, Possible, Apply, Harmless;
    if n > 0 {
      HistoryStrands(states, ops, n - 1);
      assert (forall i :: 0 <= i <= n ==> NoStranded(states[i]))
        <==> (forall i :: 0 <= i <= n - 1 ==> NoStranded(states[i])) && NoStranded(states[n]);
      assert (forall i :: 0 <= i < n ==> Harmless(states[i], ops[i]))
        <==> (forall i :: 0 <= i < n - 1 ==> Harmless(states[i], ops[i])) && Harmless(states[n - 1], ops[n - 1]);
      if forall i :: 0 <= i <= n - 1 ==> NoStranded(states[i]) {
        StepKeeps(states[n - 1], ops[n - 1]);
      }
    }
  }

  /** What a caller can check beforehand: the first recipient is good, messages are not empty, Sent is not deleted,
      nothing is put into Outbox by other means or undeleted there, and no statement fails. */
  ghost predicate Ordinary(op: Op) {
    match op
    case Submit(_, rcpts, content, _, unwrap, create, inserts) =>
      content != [] && rcpts != [] && Enqueue.Parses(unwrap, rcpts[0]) && inserts(0).Succeeds? && create.Succeeds?
    case RunQueue(_, _, _, attempts, _) => forall j :: 0 <= j < |attempts| ==> attempts[j].faults == NO_FAULTS
    case Append(mailbox, _) => mailbox != OUTBOX
    case SetFlags(k, flags) => k.mailbox == OUTBOX ==> flags.deleted
    case Move(_, destination) => destination != OUTBOX
    case DeleteMailbox(name) => name != SENT
    case _ => true
  }

  /** Everything in Outbox could be moved to Sent. */
  ghost predicate Sendworthy(v: View) {
    SENT in v.mailboxes && forall id :: Key(OUTBOX, id) in v.mail ==> v.mail[Key(OUTBOX, id)].content != []
  }

  lemma OrdinaryHarmless(v: View, op: Op)
    requires Sendworthy(v) && Possible(v, op) && Ordinary(op)
    ensures Harmless(v, op)
  {
    if op.Submit? {
      assert Enqueue.FirstRow(op.rcpts, op.unwrap, op.inserts, 0);
    } else if op.RunQueue? {
      forall j | 0 <= j < |op.refs| ensures !Strands(v, op.destination, op.self, op.refs[j], op.attempts[j]) {
        CleanStrands(v, op.destination, op.self, op.refs[j], op.attempts[j]);
      }
    }
  }

  lemma OrdinarySendworthy(v: View, op: Op)
    requires QueueOk(v) && Sendworthy(v) && Possible(v, op) && Ordinary(op)
    ensures Sendworthy(Apply(v, op))
  {
    hide Enqueue.Parses, NextId;
    if op.Submit? {
      Enqueue.QueueForExact(v, op.from, op.rcpts, op.content, op.now, op.unwrap, op.inserts);
    } else if op.RunQueue? {
      hide AfterRun;
      RunConserves(v, op.destination, op.self, op.refs, op.attempts, 0, false, op.expunge);
      var p := ProcessAll(Start(v, 0, false), op.destination, op.self, op.refs, op.attempts);
      AccountedSendworthy(v, Finish(p, op.expunge), op.destination, op);
    }
  }

  lemma AccountedSendworthy(v: View, p: Progress, destination: string, op: Op)
    requires Sendworthy(v) && Accounted(v, p, destination)
    requires Possible(v, op) && op.RunQueue? && Apply(v, op) == p.view
    ensures Sendworthy(Apply(v, op))
  {
    forall id | Key(OUTBOX, id) in p.view.mail ensures p.view.mail[Key(OUTBOX, id)].content != [] {
      assert Traced(v, p, id);
    }
  }

  /** So no ordinary history ever strands a message. */
  lemma {:induction false} NothingStranded(states: seq<View>, ops: seq<Op>, n: nat)
    requires IsHistory(states, ops) && n <= |ops|
    requires QueueOk(states[0]) && NoStranded(states[0]) && Sendworthy(states[0])
    requires forall i :: 0 <= i < |ops| ==> Ordinary(ops[i])
    ensures QueueOk(states[n]) && NoStranded(states[n]) && Sendworthy(states[n])
  {
    hide QueueOk, NoStranded, Sendworthy, Possible, Apply, Harmless, Ordinary;
    if n > 0 {
      NothingStranded(states, ops, n - 1);
      OrdinaryHarmless(states[n - 1], ops[n - 1]);
      StepKeeps(states[n - 1], ops[n - 1]);
      OrdinarySendworthy(states[n - 1], ops[n - 1]);
    }
  }

  // ----- A run that strands -----

  function OneQueued(msg: Message, destination: string, envelope: Envelope): View {
    View({OUTBOX, SENT}, map[Key(OUTBOX, 1) := msg], map[QueueKey(destination, Key(OUTBOX, 1)) := envelope])
  }

  /** The mailbox Sent can be deleted by the application, though not over IMAP. The next message delivered to its last
      recipient then has nowhere to go: it stays in Outbox, without a row, for good. */
  lemma DeletedSentStrands(msg: Message, destination: string, envelope: Envelope, now: int)
    requires !msg.flags.deleted && now - msg.date <= UNDELIVERABLE_TIMEOUT_SECS
    ensures var v := OneQueued(msg, destination, envelope);
      var run := RunQueue(destination, false, [1], [Attempt(now, Delivered, NO_FAULTS)], Succeeds);
      && QueueOk(v) && NoStranded(v)
      && Harmless(v, DeleteMailbox(SENT)) && Possible(Apply(v, DeleteMailbox(SENT)), run)
      && Stranded(Apply(Apply(v, DeleteMailbox(SENT)), run), 1)
  {
    var v := OneQueued(msg, destination, envelope);
    var q, a := QueueKey(destination, Key(OUTBOX, 1)), Attempt(now, Delivered, NO_FAULTS);
    assert q in v.queue;
    forall id ensures !Stranded(v, id) {
      assert Key(OUTBOX, id) in v.mail ==> id == 1;
    }
    var w := Apply(v, DeleteMailbox(SENT));
    StepKeeps(v, DeleteMailbox(SENT));
    assert w.mail == v.mail && w.queue == v.queue;
    assert ListedRun(w, destination, [1], [a]);
    CleanStrands(w, destination, false, 1, a);
    RunStrandsOne(w, destination, a);
  }

  lemma RunStrandsOne(w: View, destination: string, a: Attempt)
    requires ListedRun(w, destination, [1], [a]) && NoStranded(w)
    requires Strands(w, destination, false, 1, a)
    ensures Stranded(AfterRun(w, destination, false, [1], [a], Succeeds), 1)
  {
    var p := ProcessAll(Start(w, 0, false), destination, false, [1], [a]);
    RunExplained(w, destination, false, [1], [a], 0, false);
    FinishExplained(w, p, destination, false, [1], [a], Succeeds);
    hide Strands, Stranded;
    RefStrands(w, Finish(p, Succeeds), destination, false, 1, a, StoppedBefore(w, destination, false, [1], [a], 0));
  }
}
