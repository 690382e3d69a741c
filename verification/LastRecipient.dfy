// Workers of several destinations delivering the same messages at once: every
// interleaving of the statements delete row / check pending / move to Sent.
// Nothing is marked deleted and nothing is too old; sends may fail temporarily.

module LastRecipient {
  import opened Types
  import opened StoreModel
  import opened Delivery
  import opened Conservation
  import opened Drain
  import opened Sums

  /** Where a worker is with its current message. */
  datatype Pc = Next | Deleting(id: nat) | Checking(id: nat) | Moving(id: nat)

  /** A worker and the references it has still to handle. */
  datatype Worker = Worker(refs: seq<nat>, pc: Pc)

  /** The store, the workers by destination, and the Outbox ids moved so far, in order. */
  datatype System = System(view: View, workers: map<string, Worker>, sent: seq<nat>)

  datatype Step =
    | Start(d: string, refs: seq<nat>)   // read the references waiting for d
    | Try(d: string, ok: bool)           // send the next one
    | DeleteRow(d: string)
    | Check(d: string)
    | Move(d: string)

  function RowsOf(v: View, d: string): set<nat> {
    set q | q in v.queue && q.destination == d :: q.mail.id
  }

  ghost predicate Enabled(s: System, step: Step) {
    && step.d in s.workers
    && var w := s.workers[step.d];
    match step
    case Start(d, refs) =>
      w == Worker([], Next) && refs != [] && AllDifferent(refs) && (forall i :: i in refs <==> i in RowsOf(s.view, d))
    case Try(_, _) => w.pc.Next? && w.refs != []
    case DeleteRow(_) => w.pc.Deleting?
    case Check(_) => w.pc.Checking?
    case Move(_) => w.pc.Moving?
  }

  function Become(s: System, d: string, w: Worker): System {
    s.(workers := s.workers[d := w])
  }

  function Apply(s: System, step: Step): System
    requires Enabled(s, step)
  {
    var w := s.workers[step.d];
    match step
    case Start(d, refs) => Become(s, d, Worker(refs, Next))
    case Try(d, ok) =>
      var id := w.refs[0];
      Become(s, d, Worker(w.refs[1..], if ok && Key(OUTBOX, id) in s.view.mail then Deleting(id) else Next))
    case DeleteRow(d) =>
      Become(s, d, w.(pc := Checking(w.pc.id))).(view := Delivery.DeleteRow(s.view, d, w.pc.id))
    case Check(d) =>
      Become(s, d, w.(pc := if Pending(s.view, w.pc.id) then Next else Moving(w.pc.id)))
    case Move(d) =>
      var t := Become(s, d, w.(pc := Next));
      if CanSend(s.view, w.pc.id)
      then t.(view := Transfer(s.view, Key(OUTBOX, w.pc.id), SENT), sent := s.sent + [w.pc.id])
      else t
  }

  // ----- What every step keeps -----

  ghost predicate Deliverable(v: View) {
    && QueueOk(v) && SENT in v.mailboxes
    && forall id :: Key(OUTBOX, id) in v.mail ==> Live(v, id) && v.mail[Key(OUTBOX, id)].content != []
  }

  /** A worker's list is never stale: every reference in it still has its row, hence its message. */
  ghost predicate WorkerOk(v: View, d: string, w: Worker) {
    && AllDifferent(w.refs)
    && (forall i :: i in w.refs ==> HasRow(v, d, i))
    && (w.pc.Deleting? ==> HasRow(v, d, w.pc.id) && w.pc.id !in w.refs)
    && (w.pc.Moving? ==> !Pending(v, w.pc.id))
  }

  predicate Finishing(w: Worker, id: nat) {
    w.pc == Checking(id) || w.pc == Moving(id)
  }

  ghost predicate Attended(s: System, id: nat) {
    Pending(s.view, id) || exists d :: d in s.workers && Finishing(s.workers[d], id)
  }

  ghost predicate Safe(s: System) {
    && Deliverable(s.view)
    && (forall q :: q in s.view.queue ==> q.destination in s.workers)
    && (forall d :: d in s.workers ==> WorkerOk(s.view, d, s.workers[d]))
    && (forall id :: Key(OUTBOX, id) in s.view.mail ==> Attended(s, id))
  }

  /** The i-th move's message, under the i-th new id of Sent. */
  predicate SentAt(v0: View, s: System, i: nat)
    requires i < |s.sent|
  {
    var was, now := Key(OUTBOX, s.sent[i]), Key(SENT, NextId(v0.mail.Keys, SENT) + i);
    was in v0.mail && now in s.view.mail && s.view.mail[now] == v0.mail[was]
  }

  /** Sent has exactly one new message per move, in the order of the moves. */
  ghost predicate SentInOrder(v0: View, s: System) {
    && NextId(s.view.mail.Keys, SENT) == NextId(v0.mail.Keys, SENT) + |s.sent|
    && (forall i :: 0 <= i < |s.sent| ==> SentAt(v0, s, i))
    && (forall k :: k in s.view.mail && k !in v0.mail ==> k.mailbox == SENT)
  }

  /** Exactly the moved messages have left Outbox, each of them once; everything else is as it was. */
  ghost predicate RestUnchanged(v0: View, s: System) {
    && s.view.mailboxes == v0.mailboxes
    && AllDifferent(s.sent)
    && (forall i :: i in s.sent ==> Key(OUTBOX, i) in v0.mail && Key(OUTBOX, i) !in s.view.mail)
    && (forall k :: k in v0.mail && !(k.mailbox == OUTBOX && k.id in s.sent) ==>
          k in s.view.mail && s.view.mail[k] == v0.mail[k])
  }

  lemma StartSafe(s: System, step: Step)
    requires Safe(s) && Enabled(s, step) && step.Start?
    ensures Safe(Apply(s, step))
  {
    var t := Apply(s, step);
    forall i | i in step.refs ensures HasRow(s.view, step.d, i) {
      var q :| q in s.view.queue && q.destination == step.d && q.mail.id == i;
      assert q == QueueKey(step.d, Key(OUTBOX, i));
    }
    AttendedAfter(s, t, step.d);
  }

  /** A step that removes no row and takes no worker off a message leaves everything attended. */
  lemma AttendedAfter(s: System, t: System, d: string)
    requires forall id :: Key(OUTBOX, id) in s.view.mail ==> Attended(s, id)
    requires t.view == s.view && d in s.workers && d in t.workers && t.workers == s.workers[d := t.workers[d]]
    requires s.workers[d].pc.Next? || s.workers[d].pc.Deleting? || t.workers[d].pc.Moving?
             || Pending(s.view, s.workers[d].pc.id)
    requires t.workers[d].pc.Moving? ==> s.workers[d].pc.Checking? && t.workers[d].pc.id == s.workers[d].pc.id
    ensures forall id :: Key(OUTBOX, id) in t.view.mail ==> Attended(t, id)
  {
    forall id | Key(OUTBOX, id) in t.view.mail ensures Attended(t, id) {
      assert Attended(s, id);
      if !Pending(s.view, id) {
        var e :| e in s.workers && Finishing(s.workers[e], id);
        assert Finishing(t.workers[e], id);
      }
    }
  }

  lemma TrySafe(s: System, step: Step)
    requires Safe(s) && Enabled(s, step) && step.Try?
    ensures Safe(Apply(s, step))
  {
    var t := Apply(s, step);
    var w := s.workers[step.d];
    assert w.refs[0] in w.refs && (forall i :: i in w.refs[1..] ==> i in w.refs);
    assert HasRow(s.view, step.d, w.refs[0]);
    AttendedAfter(s, t, step.d);
  }

  lemma DeleteRowSafe(s: System, step: Step)
    requires Safe(s) && Enabled(s, step) && step.DeleteRow?
    ensures Safe(Apply(s, step))
  {
    var t := Apply(s, step);
    var d, id := step.d, s.workers[step.d].pc.id;
    forall e | e in t.workers ensures WorkerOk(t.view, e, t.workers[e]) {
      assert WorkerOk(s.view, e, s.workers[e]);
    }
    forall i | Key(OUTBOX, i) in t.view.mail ensures Attended(t, i) {
      assert Attended(s, i);
      if i == id {
        assert Finishing(t.workers[d], i);
      } else if Pending(s.view, i) {
        var q :| q in s.view.queue && q.mail == Key(OUTBOX, i);
        assert q in t.view.queue;
      } else {
        var e :| e in s.workers && Finishing(s.workers[e], i);
        assert Finishing(t.workers[e], i);
      }
    }
  }

  lemma CheckSafe(s: System, step: Step)
    requires Safe(s) && Enabled(s, step) && step.Check?
    ensures Safe(Apply(s, step))
  {
    AttendedAfter(s, Apply(s, step), step.d);
  }

  lemma MoveSafe(s: System, step: Step)
    requires Safe(s) && Enabled(s, step) && step.Move?
    ensures Safe(Apply(s, step))
    ensures Apply(s, step).view.queue == s.view.queue
  {
    var t := Apply(s, step);
    var d, id := step.d, s.workers[step.d].pc.id;
    assert WorkerOk(s.view, d, s.workers[d]);
    assert t.view.queue == s.view.queue;
    forall i | Key(OUTBOX, i) in t.view.mail ensures Attended(t, i) {
      assert Attended(s, i);
      if !Pending(s.view, i) {
        var e :| e in s.workers && Finishing(s.workers[e], i);
        assert e != d;
        assert Finishing(t.workers[e], i);
      }
    }
  }

  lemma StepSafe(s: System, step: Step)
    requires Safe(s) && Enabled(s, step)
    ensures Safe(Apply(s, step))
  {
    match step {
      case Start(_, _) => StartSafe(s, step);
      case Try(_, _) => TrySafe(s, step);
      case DeleteRow(_) => DeleteRowSafe(s, step);
      case Check(_) => CheckSafe(s, step);
      case Move(_) => MoveSafe(s, step);
    }
  }

  lemma MoveInOrder(v0: View, s: System, step: Step)
    requires SentInOrder(v0, s) && RestUnchanged(v0, s) && Enabled(s, step) && step.Move?
    ensures SentInOrder(v0, Apply(s, step))
  {
    var t := Apply(s, step);
    var id := s.workers[step.d].pc.id;
    if CanSend(s.view, id) {
      var k, to := Key(OUTBOX, id), Fresh(s.view, SENT);
      assert k in v0.mail;
      assert t.view.mail == s.view.mail[to := s.view.mail[k]] - {k};
      NextAfter(s.view.mail.Keys, t.view.mail.Keys, k);
    }
    forall i | 0 <= i < |t.sent| ensures SentAt(v0, t, i) {
      MovedAt(v0, s, t, id, i);
    }
  }

  lemma MovedAt(v0: View, s: System, t: System, id: nat, i: nat)
    requires i < |t.sent| && forall j :: 0 <= j < |s.sent| ==> SentAt(v0, s, j)
    requires (t.sent == s.sent && t.view.mail == s.view.mail) ||
      var k, to := Key(OUTBOX, id), Fresh(s.view, SENT);
      && k in s.view.mail && k in v0.mail && s.view.mail[k] == v0.mail[k]
      && t.sent == s.sent + [id] && t.view.mail == s.view.mail[to := s.view.mail[k]] - {k}
      && to.id == NextId(v0.mail.Keys, SENT) + |s.sent|
    ensures SentAt(v0, t, i)
  {
    if i < |s.sent| {
      assert SentAt(v0, s, i);
    }
  }

  lemma NextAfter(before: set<Key>, after: set<Key>, k: Key)
    requires k.mailbox != SENT && after == before + {Key(SENT, NextId(before, SENT))} - {k}
    ensures NextId(after, SENT) == NextId(before, SENT) + 1
  {
    assert Key(SENT, NextId(before, SENT)) in after;
  }

  lemma MoveLeavesRest(v0: View, s: System, step: Step)
    requires SentInOrder(v0, s) && RestUnchanged(v0, s) && Enabled(s, step) && step.Move?
    ensures RestUnchanged(v0, Apply(s, step))
  {
    var id := s.workers[step.d].pc.id;
    if CanSend(s.view, id) {
      assert Key(OUTBOX, id) in v0.mail;
      assert id !in s.sent;
    }
  }

  lemma OtherStepsKeepAccount(v0: View, s: System, step: Step)
    requires SentInOrder(v0, s) && RestUnchanged(v0, s) && Enabled(s, step) && !step.Move?
    ensures SentInOrder(v0, Apply(s, step)) && RestUnchanged(v0, Apply(s, step))
  {
    var t := Apply(s, step);
    assert t.view.mail == s.view.mail && t.sent == s.sent && t.view.mailboxes == s.view.mailboxes;
    forall i | 0 <= i < |t.sent| ensures SentAt(v0, t, i) {
      assert SentAt(v0, s, i);
    }
  }

  // ----- Whole runs -----

  ghost predicate IsRun(states: seq<System>, steps: seq<Step>) {
    && |states| == |steps| + 1
    && forall i :: 0 <= i < |steps| ==> Enabled(states[i], steps[i]) && states[i + 1] == Apply(states[i], steps[i])
  }

  /** Messages with at least one recipient each, and workers that have not started. */
  ghost predicate Initial(s: System) {
    && Deliverable(s.view) && s.sent == [] && NoStranded(s.view)
    && (forall q :: q in s.view.queue ==> q.destination in s.workers)
    && (forall d :: d in s.workers ==> s.workers[d] == Worker([], Next))
  }

  lemma InitialSafe(s: System)
    requires Initial(s)
    ensures Safe(s) && SentInOrder(s.view, s) && RestUnchanged(s.view, s)
  {
    forall id | Key(OUTBOX, id) in s.view.mail ensures Attended(s, id) {
      assert !Stranded(s.view, id);
    }
  }

  /** In every interleaving, at every point: Sent has exactly one copy of each message moved and Outbox the others,
      every message still in Outbox is pending or about to be moved, and none is moved while a row is pending. */
  lemma {:induction false} EveryRunIsSafe(states: seq<System>, steps: seq<Step>, n: nat)
    requires IsRun(states, steps) && Initial(states[0]) && n <= |steps|
    ensures Safe(states[n]) && SentInOrder(states[0].view, states[n]) && RestUnchanged(states[0].view, states[n])
    ensures n < |steps| && steps[n].Move? ==> !Pending(states[n].view, states[n].workers[steps[n].d].pc.id)
  {
    hide Safe, SentInOrder, RestUnchanged, Initial, Apply;
    if n == 0 {
      InitialSafe(states[0]);
    } else {
      EveryRunIsSafe(states, steps, n - 1);
      var s, step := states[n - 1], steps[n - 1];
      StepSafe(s, step);
      if step.Move? {
        MoveInOrder(states[0].view, s, step);
        MoveLeavesRest(states[0].view, s, step);
      } else {
        OtherStepsKeepAccount(states[0].view, s, step);
      }
    }
    if n < |steps| && steps[n].Move? {
      NeverMovesEarly(states[n], steps[n]);
    }
  }

  lemma NeverMovesEarly(s: System, step: Step)
    requires Safe(s) && Enabled(s, step) && step.Move?
    ensures !Pending(s.view, s.workers[step.d].pc.id)
  {
    assert WorkerOk(s.view, step.d, s.workers[step.d]);
  }

  ghost predicate AllDone(s: System) {
    s.view.queue == map[] && forall d :: d in s.workers ==> s.workers[d].pc.Next?
  }

  /** When every row has been delivered and every worker is through, each message is in Sent, exactly once. */
  lemma EveryMessageIsSent(states: seq<System>, steps: seq<Step>)
    requires IsRun(states, steps) && Initial(states[0]) && AllDone(states[|steps|])
    ensures var s, v0 := states[|steps|], states[0].view;
      && (forall id :: Key(OUTBOX, id) in v0.mail <==> id in s.sent)
      && AllDifferent(s.sent) && SentInOrder(v0, s)
      && (forall id :: Key(OUTBOX, id) !in s.view.mail)
  {
    var s := states[|steps|];
    EveryRunIsSafe(states, steps, |steps|);
    forall id ensures Key(OUTBOX, id) !in s.view.mail {
      assert !Attended(s, id);
    }
  }

  // ----- Every run ends -----

  function Points(v: View, d: string, w: Worker): int {
    5 * |RowsOf(v, d)| - |w.refs|
    + match w.pc case Next => 0 case Deleting(_) => -2 case Checking(_) => 2 case Moving(_) => 1
  }

  /** What destination d still has to do: five steps for a row nobody has picked up, four for one in the
      worker's list, and down to one for a message about to be moved. */
  function Weight(v: View, d: string, w: Worker): nat {
    if Points(v, d, w) < 0 then 0 else Points(v, d, w)
  }

  function Weights(s: System): map<string, nat> {
    map d | d in s.workers :: Weight(s.view, d, s.workers[d])
  }

  ghost function Remaining(s: System): nat {
    Sum(Weights(s))
  }

  lemma {:induction false} DifferentCount(refs: seq<nat>, rows: set<nat>)
    requires AllDifferent(refs) && forall i :: i in refs ==> i in rows
    ensures |refs| <= |rows|
  {
    if refs != [] {
      var last, init := refs[|refs| - 1], refs[..|refs| - 1];
      assert last !in init;
      DifferentCount(init, rows - {last});
    }
  }

  lemma PointsCount(v: View, d: string, w: Worker)
    requires WorkerOk(v, d, w)
    ensures Weight(v, d, w) == Points(v, d, w)
  {
    forall i | HasRow(v, d, i) ensures i in RowsOf(v, d) {
      assert QueueKey(d, Key(OUTBOX, i)) in v.queue;
    }
    if w.pc.Deleting? {
      DifferentCount(w.refs, RowsOf(v, d) - {w.pc.id});
    } else {
      DifferentCount(w.refs, RowsOf(v, d));
    }
  }

  lemma OtherRowsSame(v: View, d: string, id: nat, e: string)
    requires d != e
    ensures RowsOf(Delivery.DeleteRow(v, d, id), e) == RowsOf(v, e)
  {
  }

  lemma OwnRowsShrink(v: View, d: string, id: nat)
    requires QueueOk(v) && HasRow(v, d, id)
    ensures |RowsOf(Delivery.DeleteRow(v, d, id), d)| == |RowsOf(v, d)| - 1
  {
    var w := Delivery.DeleteRow(v, d, id);
    assert QueueKey(d, Key(OUTBOX, id)) in v.queue;
    forall i | i in RowsOf(v, d) && i != id ensures i in RowsOf(w, d) {
      var q :| q in v.queue && q.destination == d && q.mail.id == i;
      assert q in w.queue;
    }
    forall i | i in RowsOf(w, d) ensures i in RowsOf(v, d) && i != id {
      var q :| q in w.queue && q.destination == d && q.mail.id == i;
      assert q != QueueKey(d, Key(OUTBOX, id));
    }
    assert RowsOf(w, d) == RowsOf(v, d) - {id};
  }

  lemma OwnWeightFalls(s: System, step: Step)
    requires Safe(s) && Enabled(s, step) && (step.Try? ==> step.ok)
    ensures var t := Apply(s, step);
      Weight(t.view, step.d, t.workers[step.d]) < Weight(s.view, step.d, s.workers[step.d])
  {
    var d, t := step.d, Apply(s, step);
    var w := s.workers[d];
    PointsCount(s.view, d, w);
    StepSafe(s, step);
    PointsCount(t.view, d, t.workers[d]);
    match step {
      case Try(_, _) =>
        assert HasRow(s.view, d, w.refs[0]);
      case DeleteRow(_) => OwnRowsShrink(s.view, d, w.pc.id);
      case Move(_) =>
        MoveSafe(s, step);
        assert RowsOf(t.view, d) == RowsOf(s.view, d);
      case _ =>
    }
  }

  lemma OtherWeightsSame(s: System, step: Step, e: string)
    requires Safe(s) && Enabled(s, step) && e in s.workers && e != step.d
    ensures var t := Apply(s, step);
      e in t.workers && Weight(t.view, e, t.workers[e]) == Weight(s.view, e, s.workers[e])
  {
    var t := Apply(s, step);
    match step {
      case DeleteRow(_) => OtherRowsSame(s.view, step.d, s.workers[step.d].pc.id, e);
      case Move(_) =>
        MoveSafe(s, step);
        assert RowsOf(t.view, e) == RowsOf(s.view, e);
      case _ =>
    }
  }

  /** Every step of a run whose sends succeed does some of the work that is left. */
  lemma StepWorks(s: System, step: Step)
    requires Safe(s) && Enabled(s, step) && (step.Try? ==> step.ok)
    ensures Remaining(Apply(s, step)) < Remaining(s)
  {
    hide Weight, Safe;
    var before, after := Weights(s), Weights(Apply(s, step));
    OwnWeightFalls(s, step);
    assert after.Keys == before.Keys;
    forall e | e in s.workers && e != step.d ensures after[e] == before[e] {
      OtherWeightsSame(s, step, e);
    }
    OneFalls(before, after, step.d);
  }

  lemma OneFalls(before: map<string, nat>, after: map<string, nat>, d: string)
    requires before.Keys == after.Keys && d in before && after[d] < before[d]
    requires forall e :: e in before && e != d ==> after[e] == before[e]
    ensures Sum(after) < Sum(before)
  {
    SumSplit(before, d);
    SumSplit(after, d);
    assert before - {d} == after - {d};
  }

  /** So such a run has at most that many steps ... */
  lemma {:induction false} RunsAreBounded(states: seq<System>, steps: seq<Step>, n: nat)
    requires IsRun(states, steps) && Initial(states[0]) && n <= |steps|
    requires forall i :: 0 <= i < |steps| ==> steps[i].Try? ==> steps[i].ok
    ensures Remaining(states[n]) + n <= Remaining(states[0])
  {
    hide Safe, Apply, Initial, Remaining;
    if n > 0 {
      RunsAreBounded(states, steps, n - 1);
      EveryRunIsSafe(states, steps, n - 1);
      StepWorks(states[n - 1], steps[n - 1]);
    }
  }

  /** ... and until everything is done there is always a step to take, so by EveryMessageIsSent such
      a run ends with every message in Sent. */
  lemma NeverStuck(s: System)
    requires Safe(s) && !AllDone(s)
    ensures exists step :: Enabled(s, step) && (step.Try? ==> step.ok)
  {
    if d :| d in s.workers && !s.workers[d].pc.Next? {
      var step := match s.workers[d].pc case Deleting(_) => DeleteRow(d) case Checking(_) => Check(d) case _ => Move(d);
      assert Enabled(s, step);
    } else {
      var q :| q in s.view.queue;
      var d := q.destination;
      if s.workers[d].refs != [] {
        assert Enabled(s, Try(d, true));
      } else {
        var refs := Listed(RowsOf(s.view, d));
        assert q.mail.id in RowsOf(s.view, d);
        assert Enabled(s, Start(d, refs));
      }
    }
  }

  /** A set of ids as a list. */
  ghost function Listed(ids: set<nat>): (refs: seq<nat>)
    ensures AllDifferent(refs) && forall i :: i in refs <==> i in ids
  {
    if ids == {} then []
    else
      var i :| i in ids;
      Listed(ids - {i}) + [i]
  }

  // ----- Nothing goes unsent -----

  /** Step i was a successful send of message id to d. */
  ghost predicate SendsAt(states: seq<System>, steps: seq<Step>, i: nat, d: string, id: nat)
    requires |states| == |steps| + 1
  {
    && i < |steps| && steps[i] == Try(d, true) && d in states[i].workers
    && states[i].workers[d].refs != [] && states[i].workers[d].refs[0] == id
  }

  ghost predicate SentBefore(states: seq<System>, steps: seq<Step>, n: nat, d: string, id: nat)
    requires |states| == |steps| + 1
  {
    exists i: nat :: i < n && SendsAt(states, steps, i, d, id)
  }

  /** A failed send changes nothing but the worker's list: its row and its message stay. */
  lemma FailedSend(s: System, d: string)
    requires Enabled(s, Try(d, false))
    ensures var t := Apply(s, Try(d, false));
      && t.view == s.view && t.sent == s.sent
      && t.workers == s.workers[d := Worker(s.workers[d].refs[1..], Next)]
  {
  }

  /** Only a successful send brings a worker to deleting a row, and only such a worker deletes it. */
  lemma StepSends(s: System, step: Step, d: string, id: nat)
    requires Safe(s) && Enabled(s, step)
    ensures var t := Apply(s, step);
      && (d in t.workers && t.workers[d].pc == Deleting(id) ==>
            d in s.workers && (s.workers[d].pc == Deleting(id)
                               || (step == Try(d, true) && s.workers[d].refs != [] && s.workers[d].refs[0] == id)))
      && (HasRow(s.view, d, id) && !HasRow(t.view, d, id) ==> d in s.workers && s.workers[d].pc == Deleting(id))
  {
    assert WorkerOk(s.view, step.d, s.workers[step.d]);
    if step.Move? {
      assert HasRow(s.view, d, id) ==> Pending(s.view, id);
    }
  }

  lemma {:induction false} RowsGoBySending(states: seq<System>, steps: seq<Step>, n: nat, d: string, id: nat)
    requires IsRun(states, steps) && Initial(states[0]) && n <= |steps|
    ensures d in states[n].workers && states[n].workers[d].pc == Deleting(id) ==> SentBefore(states, steps, n, d, id)
    ensures HasRow(states[0].view, d, id) && !HasRow(states[n].view, d, id) ==> SentBefore(states, steps, n, d, id)
  {
    hide Safe, Apply, Enabled, HasRow;
    if n == 0 {
      InitialWorkers(states[0], d);
    } else {
      RowsGoBySending(states, steps, n - 1, d, id);
      EveryRunIsSafe(states, steps, n - 1);
      StepSends(states[n - 1], steps[n - 1], d, id);
      if SentBefore(states, steps, n - 1, d, id) {
        var i: nat :| i < n - 1 && SendsAt(states, steps, i, d, id);
        assert SentBefore(states, steps, n, d, id);
      } else if d in states[n].workers && states[n].workers[d].pc == Deleting(id) {
        assert SendsAt(states, steps, n - 1, d, id);
      }
    }
  }

  lemma InitialWorkers(s: System, d: string)
    requires Initial(s)
    ensures d in s.workers ==> s.workers[d].pc == Next
  {
  }

  /** Every message moved to Sent was sent, successfully, to every destination that had a row for it. */
  lemma SentToAll(states: seq<System>, steps: seq<Step>, n: nat, id: nat, d: string)
    requires IsRun(states, steps) && Initial(states[0]) && n <= |steps|
    requires id in states[n].sent && HasRow(states[0].view, d, id)
    ensures SentBefore(states, steps, n, d, id)
  {
    hide Apply, Enabled, SentInOrder;
    EveryRunIsSafe(states, steps, n);
    RowsGoBySending(states, steps, n, d, id);
    assert Key(OUTBOX, id) !in states[n].view.mail;
    assert !HasRow(states[n].view, d, id);
  }

  // ----- New messages while workers run -----

  function RowsFor(hosts: set<string>, k: Key): set<QueueKey> {
    set h | h in hosts :: QueueKey(h, k)
  }

  /** QueueFor as one step: a message, a row per host, and a worker for each new host. */
  function Enqueue(s: System, hosts: set<string>, msg: Message, envelope: Envelope): System {
    var k := Fresh(s.view, OUTBOX);
    var rows := map q | q in RowsFor(hosts, k) :: envelope;
    s.(view := Put(s.view, OUTBOX, msg).(queue := s.view.queue + rows),
       workers := (map h | h in hosts :: Worker([], Next)) + s.workers)
  }

  lemma EnqueuedRows(s: System, hosts: set<string>, msg: Message, envelope: Envelope)
    ensures var k, v := Fresh(s.view, OUTBOX), Enqueue(s, hosts, msg, envelope).view;
      forall q :: q in v.queue <==> q in s.view.queue || (q.mail == k && q.destination in hosts)
  {
    var k := Fresh(s.view, OUTBOX);
    forall q: QueueKey | q.mail == k && q.destination in hosts
      ensures q in Enqueue(s, hosts, msg, envelope).view.queue
    {
      assert q == QueueKey(q.destination, k);
    }
  }

  /** Ids are reused, so enqueueing keeps the workers safe exactly when none of them is about to move a message
      of the id that the new one is given. */
  lemma EnqueueSafe(s: System, hosts: set<string>, msg: Message, envelope: Envelope)
    requires Safe(s) && hosts != {} && !msg.flags.deleted && msg.content != []
    ensures Safe(Enqueue(s, hosts, msg, envelope)) <==>
      forall d :: d in s.workers ==> s.workers[d].pc != Moving(Fresh(s.view, OUTBOX).id)
  {
    hide Deliverable, WorkerOk, Attended, Enqueue, Fresh;
    var k, t := Fresh(s.view, OUTBOX), Enqueue(s, hosts, msg, envelope);
    EnqueueDeliverable(s, hosts, msg, envelope);
    EnqueueWorkers(s, hosts, msg, envelope);
    if d :| d in s.workers && s.workers[d].pc == Moving(k.id) {
      StaleWorker(s, d, hosts, msg, envelope);
    } else {
      forall d | d in t.workers ensures WorkerOk(t.view, d, t.workers[d]) {
        FreshWorker(s, d, hosts, msg, envelope);
      }
      forall id | Key(OUTBOX, id) in t.view.mail ensures Attended(t, id) {
        EnqueueAttended(s, id, hosts, msg, envelope);
      }
    }
  }

  lemma EnqueueDeliverable(s: System, hosts: set<string>, msg: Message, envelope: Envelope)
    requires Deliverable(s.view) && !msg.flags.deleted && msg.content != []
    ensures Deliverable(Enqueue(s, hosts, msg, envelope).view)
  {
    EnqueuedRows(s, hosts, msg, envelope);
  }

  lemma EnqueueWorkers(s: System, hosts: set<string>, msg: Message, envelope: Envelope)
    requires forall q :: q in s.view.queue ==> q.destination in s.workers
    ensures var t := Enqueue(s, hosts, msg, envelope);
      && (forall q :: q in t.view.queue ==> q.destination in t.workers)
      && (forall d :: d in s.workers ==> d in t.workers && t.workers[d] == s.workers[d])
  {
    EnqueuedRows(s, hosts, msg, envelope);
  }

  lemma StaleWorker(s: System, d: string, hosts: set<string>, msg: Message, envelope: Envelope)
    requires d in s.workers && s.workers[d].pc == Moving(Fresh(s.view, OUTBOX).id) && hosts != {}
    ensures var t := Enqueue(s, hosts, msg, envelope); d in t.workers && !WorkerOk(t.view, d, t.workers[d])
  {
    hide Fresh;
    EnqueuedRows(s, hosts, msg, envelope);
    var h :| h in hosts;
    assert QueueKey(h, Fresh(s.view, OUTBOX)) in Enqueue(s, hosts, msg, envelope).view.queue;
    assert Fresh(s.view, OUTBOX).mailbox == OUTBOX by {
      FreshIsOutbox(s.view);
    }
  }

  lemma FreshIsOutbox(v: View)
    ensures Fresh(v, OUTBOX).mailbox == OUTBOX && Fresh(v, OUTBOX) !in v.mail.Keys
  {
  }

  lemma FreshWorker(s: System, d: string, hosts: set<string>, msg: Message, envelope: Envelope)
    requires d in s.workers ==> WorkerOk(s.view, d, s.workers[d]) && s.workers[d].pc != Moving(Fresh(s.view, OUTBOX).id)
    requires d in Enqueue(s, hosts, msg, envelope).workers
    ensures WorkerOk(Enqueue(s, hosts, msg, envelope).view, d, Enqueue(s, hosts, msg, envelope).workers[d])
  {
    hide NextId;
    EnqueuedRows(s, hosts, msg, envelope);
  }

  lemma EnqueueAttended(s: System, id: nat, hosts: set<string>, msg: Message, envelope: Envelope)
    requires hosts != {} && Key(OUTBOX, id) in Enqueue(s, hosts, msg, envelope).view.mail
    requires Key(OUTBOX, id) in s.view.mail ==> Attended(s, id)
    ensures Attended(Enqueue(s, hosts, msg, envelope), id)
  {
    hide NextId;
    var t := Enqueue(s, hosts, msg, envelope);
    EnqueuedRows(s, hosts, msg, envelope);
    if Key(OUTBOX, id) in s.view.mail {
      StillAttended(s, t, id);
    } else {
      var h :| h in hosts;
      assert QueueKey(h, Key(OUTBOX, id)) in t.view.queue;
    }
  }

  lemma StillAttended(s: System, t: System, id: nat)
    requires Attended(s, id)
    requires forall q :: q in s.view.queue ==> q in t.view.queue
    requires forall d :: d in s.workers ==> d in t.workers && t.workers[d] == s.workers[d]
    ensures Attended(t, id)
  {
    if Pending(s.view, id) {
      var q :| q in s.view.queue && q.mail == Key(OUTBOX, id);
      assert q in t.view.queue;
    } else {
      var d :| d in s.workers && Finishing(s.workers[d], id);
      assert Finishing(t.workers[d], id);
    }
  }

  /** A step of a worker, or a submission. */
  datatype Event = Work(step: Step) | Submit(hosts: set<string>, msg: Message, envelope: Envelope)

  ghost predicate Possible(s: System, e: Event) {
    match e
    case Work(step) => Enabled(s, step)
    case Submit(hosts, msg, _) => hosts != {} && !msg.flags.deleted && msg.content != []
  }

  ghost function Happen(s: System, e: Event): System
    requires Possible(s, e)
  {
    match e
    case Work(step) => Apply(s, step)
    case Submit(hosts, msg, envelope) => Enqueue(s, hosts, msg, envelope)
  }

  ghost predicate IsHistory(states: seq<System>, events: seq<Event>) {
    && |states| == |events| + 1
    && forall i :: 0 <= i < |events| ==> Possible(states[i], events[i]) && states[i + 1] == Happen(states[i], events[i])
  }

  /** No submission is given the id of a message that a worker is about to move. */
  predicate KeepsClear(s: System, e: Event) {
    e.Submit? ==> forall d :: d in s.workers ==> s.workers[d].pc != Moving(Fresh(s.view, OUTBOX).id)
  }

  lemma EventSafe(s: System, e: Event)
    requires Safe(s) && Possible(s, e)
    ensures Safe(Happen(s, e)) <==> KeepsClear(s, e)
  {
    hide Safe, Apply, Enqueue, Enabled, Fresh;
    match e {
      case Work(step) => StepSafe(s, step);
      case Submit(hosts, msg, envelope) => EnqueueSafe(s, hosts, msg, envelope);
    }
  }

  /** Over every interleaving of worker steps and submissions the workers stay safe exactly as long as no submission
      reuses the id of a message that a worker is about to move. */
  lemma {:induction false} HistorySafe(states: seq<System>, events: seq<Event>, n: nat)
    requires IsHistory(states, events) && n <= |events| && Safe(states[0])
    ensures (forall i :: 0 <= i <= n ==> Safe(states[i])) <==>
      forall i :: 0 <= i < n ==> KeepsClear(states[i], events[i])
  {
    hide Safe, Possible, Happen, KeepsClear;
    if n > 0 {
      HistorySafe(states, events, n - 1);
      assert (forall i :: 0 <= i <= n ==> Safe(states[i]))
        <==> (forall i :: 0 <= i <= n - 1 ==> Safe(states[i])) && Safe(states[n]);
      assert (forall i :: 0 <= i < n ==> KeepsClear(states[i], events[i]))
        <==> (forall i :: 0 <= i < n - 1 ==> KeepsClear(states[i], events[i]))
             && KeepsClear(states[n - 1], events[n - 1]);
      if Safe(states[n - 1]) {
        EventSafe(states[n - 1], events[n - 1]);
      }
    }
  }

  /** What happens otherwise: the last two recipients finish together, the first worker moves the message, a new
      message is given its id, and the second worker moves that one to Sent before it was sent to anybody. */
  lemma StaleMoveLosesMail(s: System, d: string, e: string, id: nat, hosts: set<string>, msg: Message,
                           envelope: Envelope)
    requires Safe(s) && d != e && d in s.workers && e in s.workers
    requires s.workers[d].pc == Moving(id) && s.workers[e].pc == Moving(id)
    requires Key(OUTBOX, id) in s.view.mail && NextId(s.view.mail.Keys, OUTBOX) == id + 1
    requires id == 1 || (id > 1 && Key(OUTBOX, id - 1) in s.view.mail)
    requires hosts != {} && msg.content != []
    ensures var moved := Apply(s, Move(d));
      var enqueued := Enqueue(moved, hosts, msg, envelope);
      && Key(OUTBOX, id) in enqueued.view.mail && enqueued.view.mail[Key(OUTBOX, id)] == msg
      && Pending(enqueued.view, id)
      && Enabled(enqueued, Move(e))
      && var lost := Apply(enqueued, Move(e));
      && Key(OUTBOX, id) !in lost.view.mail && !Pending(lost.view, id)
      && Fresh(enqueued.view, SENT) in lost.view.mail && lost.view.mail[Fresh(enqueued.view, SENT)] == msg
  {
    FirstMove(s, d, id);
    SecondMove(Apply(s, Move(d)), e, id, hosts, msg, envelope);
  }

  lemma FirstMove(s: System, d: string, id: nat)
    requires Safe(s) && d in s.workers && s.workers[d].pc == Moving(id)
    requires Key(OUTBOX, id) in s.view.mail && NextId(s.view.mail.Keys, OUTBOX) == id + 1
    requires id == 1 || (id > 1 && Key(OUTBOX, id - 1) in s.view.mail)
    ensures var t := Apply(s, Move(d));
      && CanSend(s.view, id) && NextId(t.view.mail.Keys, OUTBOX) == id && SENT in t.view.mailboxes
      && forall e :: e in s.workers && e != d ==> e in t.workers && t.workers[e] == s.workers[e]
  {
    assert CanSend(s.view, id);
    FreedId(s.view.mail.Keys, Fresh(s.view, SENT), id);
    assert Apply(s, Move(d)).view.mail.Keys == s.view.mail.Keys + {Fresh(s.view, SENT)} - {Key(OUTBOX, id)};
  }

  lemma FreedId(keys: set<Key>, sent: Key, id: nat)
    requires NextId(keys, OUTBOX) == id + 1 && sent.mailbox == SENT
    requires id == 1 || (id > 1 && Key(OUTBOX, id - 1) in keys)
    ensures NextId(keys + {sent} - {Key(OUTBOX, id)}, OUTBOX) == id
  {
    var after := keys + {sent} - {Key(OUTBOX, id)};
    if id > 1 {
      assert Key(OUTBOX, id - 1) in after;
    }
    assert forall i: nat :: Key(OUTBOX, i) in after ==> Key(OUTBOX, i) in keys;
  }

  lemma SecondMove(moved: System, e: string, id: nat, hosts: set<string>, msg: Message, envelope: Envelope)
    requires NextId(moved.view.mail.Keys, OUTBOX) == id && SENT in moved.view.mailboxes
    requires e in moved.workers && moved.workers[e].pc == Moving(id) && hosts != {} && msg.content != []
    ensures var enqueued := Enqueue(moved, hosts, msg, envelope);
      && Key(OUTBOX, id) in enqueued.view.mail && enqueued.view.mail[Key(OUTBOX, id)] == msg
      && Pending(enqueued.view, id)
      && Enabled(enqueued, Move(e))
      && var lost := Apply(enqueued, Move(e));
      && Key(OUTBOX, id) !in lost.view.mail && !Pending(lost.view, id)
      && Fresh(enqueued.view, SENT) in lost.view.mail && lost.view.mail[Fresh(enqueued.view, SENT)] == msg
  {
    var enqueued := Enqueue(moved, hosts, msg, envelope);
    EnqueuedRows(moved, hosts, msg, envelope);
    var h :| h in hosts;
    assert QueueKey(h, Key(OUTBOX, id)) in enqueued.view.queue;
    assert CanSend(enqueued.view, id);
  }

  // ----- Such a state is reached -----

  function TwoWorkers(v: View, d: string, wd: Worker, e: string, we: Worker): System {
    System(v, map[d := wd, e := we], [])
  }

  /** One message in Outbox, queued for the given destinations. */
  function OneMessage(msg: Message, hosts: set<string>, envelope: Envelope): View {
    View({OUTBOX, SENT}, map[Key(OUTBOX, 1) := msg], map q | q in RowsFor(hosts, Key(OUTBOX, 1)) :: envelope)
  }

  lemma OneMessageRows(msg: Message, hosts: set<string>, envelope: Envelope, d: string)
    ensures var v := OneMessage(msg, hosts, envelope);
      && (forall q :: q in v.queue <==> q.mail == Key(OUTBOX, 1) && q.destination in hosts)
      && Key(OUTBOX, 1) in v.mail && NextId(v.mail.Keys, OUTBOX) == 2
      && RowsOf(v, d) == (if d in hosts then {1} else {})
      && (Pending(v, 1) <==> hosts != {})
      && Delivery.DeleteRow(v, d, 1) == OneMessage(msg, hosts - {d}, envelope)
  {
    var v, k := OneMessage(msg, hosts, envelope), Key(OUTBOX, 1);
    assert k in v.mail.Keys;
    forall q ensures q in v.queue <==> q.mail == k && q.destination in hosts {
      if q.mail == k && q.destination in hosts {
        assert q == QueueKey(q.destination, k);
      }
    }
    if d in hosts {
      assert QueueKey(d, k) in v.queue;
    }
    if h :| h in hosts {
      assert QueueKey(h, k) in v.queue;
    }
    assert Delivery.DeleteRow(v, d, 1).queue == OneMessage(msg, hosts - {d}, envelope).queue;
  }

  lemma OneMessageInitial(msg: Message, envelope: Envelope, d: string, e: string)
    requires d != e && msg.content != [] && !msg.flags.deleted
    ensures Initial(TwoWorkers(OneMessage(msg, {d, e}, envelope), d, Worker([], Next), e, Worker([], Next)))
  {
    OneMessageRows(msg, {d, e}, envelope, d);
  }

  /** One step of the first of two workers on message 1. */
  lemma WorkerSteps(v: View, d: string, e: string, we: Worker)
    requires d != e && Key(OUTBOX, 1) in v.mail
    ensures RowsOf(v, d) == {1} ==> var s := TwoWorkers(v, d, Worker([], Next), e, we);
      Enabled(s, Start(d, [1])) && Apply(s, Start(d, [1])) == TwoWorkers(v, d, Worker([1], Next), e, we)
    ensures var s := TwoWorkers(v, d, Worker([1], Next), e, we);
      Enabled(s, Try(d, true)) && Apply(s, Try(d, true)) == TwoWorkers(v, d, Worker([], Deleting(1)), e, we)
    ensures var s := TwoWorkers(v, d, Worker([], Deleting(1)), e, we);
      Enabled(s, Step.DeleteRow(d))
      && Apply(s, Step.DeleteRow(d)) == TwoWorkers(Delivery.DeleteRow(v, d, 1), d, Worker([], Checking(1)), e, we)
    ensures !Pending(v, 1) ==> var s := TwoWorkers(v, d, Worker([], Checking(1)), e, we);
      Enabled(s, Check(d)) && Apply(s, Check(d)) == TwoWorkers(v, d, Worker([], Moving(1)), e, we)
  {
    hide RowsOf, Pending, Delivery.DeleteRow;
    var idle, listed, sent := Worker([], Next), Worker([1], Next), Worker([], Deleting(1));
    var checking, moving := Worker([], Checking(1)), Worker([], Moving(1));
    Becomes(v, d, idle, listed, e, we);
    Becomes(v, d, listed, sent, e, we);
    Becomes(v, d, sent, checking, e, we);
    Becomes(v, d, checking, moving, e, we);
    assert listed.refs[1..] == [];
  }

  lemma Becomes(v: View, d: string, before: Worker, after: Worker, e: string, we: Worker)
    requires d != e
    ensures var s := TwoWorkers(v, d, before, e, we);
      d in s.workers && s.workers[d] == before && Become(s, d, after) == TwoWorkers(v, d, after, e, we)
  {
    assert Become(TwoWorkers(v, d, before, e, we), d, after).workers == TwoWorkers(v, d, after, e, we).workers;
  }

  lemma SwapWorkers(v: View, d: string, wd: Worker, e: string, we: Worker)
    requires d != e
    ensures TwoWorkers(v, d, wd, e, we) == TwoWorkers(v, e, we, d, wd)
  {
  }

  lemma OneMore(states: seq<System>, steps: seq<Step>, step: Step, next: System)
    requires IsRun(states, steps) && Enabled(states[|steps|], step) && next == Apply(states[|steps|], step)
    ensures IsRun(states + [next], steps + [step])
  {
    hide Enabled, Apply;
  }

  /** The same step by one worker and then by the other. */
  lemma BothStep(states: seq<System>, steps: seq<Step>, v0: View, v1: View, v2: View, d: string, e: string,
                 before: Worker, after: Worker, first: Step, second: Step)
    returns (allStates: seq<System>, allSteps: seq<Step>)
    requires d != e && IsRun(states, steps) && states[|steps|] == TwoWorkers(v0, d, before, e, before)
    requires Enabled(TwoWorkers(v0, d, before, e, before), first)
    requires Apply(TwoWorkers(v0, d, before, e, before), first) == TwoWorkers(v1, d, after, e, before)
    requires Enabled(TwoWorkers(v1, e, before, d, after), second)
    requires Apply(TwoWorkers(v1, e, before, d, after), second) == TwoWorkers(v2, e, after, d, after)
    ensures IsRun(allStates, allSteps) && allStates[0] == states[0]
    ensures allStates[|allSteps|] == TwoWorkers(v2, d, after, e, after)
  {
    hide Enabled, Apply, TwoWorkers;
    SwapWorkers(v1, d, after, e, before);
    SwapWorkers(v2, d, after, e, after);
    OneMore(states, steps, first, TwoWorkers(v1, d, after, e, before));
    allStates, allSteps := states + [TwoWorkers(v1, d, after, e, before)], steps + [first];
    OneMore(allStates, allSteps, second, TwoWorkers(v2, d, after, e, after));
    allStates, allSteps := allStates + [TwoWorkers(v2, d, after, e, after)], allSteps + [second];
  }

  /** Both workers list the message, send it, delete their rows, and only then check. */
  lemma StaleMoveReached(msg: Message, envelope: Envelope, d: string, e: string)
    returns (states: seq<System>, steps: seq<Step>)
    requires d != e && msg.content != [] && !msg.flags.deleted
    ensures IsRun(states, steps) && Initial(states[0])
    ensures states[|steps|]
         == TwoWorkers(OneMessage(msg, {}, envelope), d, Worker([], Moving(1)), e, Worker([], Moving(1)))
    ensures Safe(states[|steps|]) && NextId(states[|steps|].view.mail.Keys, OUTBOX) == 2
  {
    hide Enabled, Apply, Safe, Initial, TwoWorkers, RowsOf, Pending, Delivery.DeleteRow, OneMessage;
    var both, one := OneMessage(msg, {d, e}, envelope), OneMessage(msg, {e}, envelope);
    var none := OneMessage(msg, {}, envelope);
    var idle, listed, sent := Worker([], Next), Worker([1], Next), Worker([], Deleting(1));
    var checking, moving := Worker([], Checking(1)), Worker([], Moving(1));
    OneMessageInitial(msg, envelope, d, e);
    OneMessageRows(msg, {d, e}, envelope, d);
    OneMessageRows(msg, {d, e}, envelope, e);
    OneMessageRows(msg, {e}, envelope, e);
    OneMessageRows(msg, {}, envelope, d);
    assert {d, e} - {d} == {e} && {e} - {e} == {};
    states, steps := [TwoWorkers(both, d, idle, e, idle)], [];
    WorkerSteps(both, d, e, idle);
    WorkerSteps(both, e, d, listed);
    states, steps := BothStep(states, steps, both, both, both, d, e, idle, listed, Start(d, [1]), Start(e, [1]));
    WorkerSteps(both, d, e, listed);
    WorkerSteps(both, e, d, sent);
    states, steps := BothStep(states, steps, both, both, both, d, e, listed, sent, Try(d, true), Try(e, true));
    WorkerSteps(both, d, e, sent);
    WorkerSteps(one, e, d, checking);
    states, steps := BothStep(states, steps, both, one, none, d, e, sent, checking, Step.DeleteRow(d),
                              Step.DeleteRow(e));
    WorkerSteps(none, d, e, checking);
    WorkerSteps(none, e, d, moving);
    states, steps := BothStep(states, steps, none, none, none, d, e, checking, moving, Check(d), Check(e));
    EveryRunIsSafe(states, steps, |steps|);
    assert states[|steps|].view == none by {
      ViewOfWorkers(none, d, moving, e, moving);
    }
  }

  lemma ViewOfWorkers(v: View, d: string, wd: Worker, e: string, we: Worker)
    ensures TwoWorkers(v, d, wd, e, we).view == v
  {
  }
}
