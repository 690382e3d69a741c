// Why each message and each queue row of a run ended where it did: exact
// conditions on what the run started from, the network's answers and the
// statements that failed.

module Drain {
  import opened Types
  import opened StoreModel
  import opened Delivery
  import opened Conservation

  predicate Live(v: View, id: nat) {
    Key(OUTBOX, id) in v.mail && !v.mail[Key(OUTBOX, id)].flags.deleted
  }

  /** A message in Outbox that nothing will ever send or remove. */
  predicate Stranded(v: View, id: nat) {
    Live(v, id) && !Pending(v, id)
  }

  ghost predicate NoStranded(v: View) {
    forall id :: !Stranded(v, id)
  }

  predicate HasRow(v: View, destination: string, id: nat) {
    QueueKey(destination, Key(OUTBOX, id)) in v.queue
  }

  predicate PendingElsewhere(v: View, destination: string, id: nat) {
    exists q :: q in v.queue && q.mail == Key(OUTBOX, id) && q.destination != destination
  }

  // ----- What one attempt does, read off the starting state -----

  predicate Tried(v: View, id: nat, a: Attempt) {
    Live(v, id) && !a.faults.select
  }

  /** Older than seven days. */
  predicate TooOld(v: View, id: nat, a: Attempt) {
    Tried(v, id, a) && a.now - v.mail[Key(OUTBOX, id)].date > 604800
  }

  predicate Sendable(v: View, id: nat, a: Attempt) {
    Tried(v, id, a) && !TooOld(v, id, a)
  }

  /** The attempt passes for a delivery. */
  predicate Delivers(v: View, self: bool, id: nat, a: Attempt) {
    && Sendable(v, id, a)
    && if self then a.faults.create.Skipped? || (a.faults.create.Succeeds? && INBOX in v.mailboxes)
       else a.send.Delivered?
  }

  /** A self-send that did put a message into INBOX. */
  predicate Copies(v: View, self: bool, id: nat, a: Attempt) {
    Sendable(v, id, a) && self && a.faults.create.Succeeds? && INBOX in v.mailboxes
  }

  /** A statement after a delivery reports an error. */
  predicate RecordFails(v: View, destination: string, id: nat, f: Faults) {
    || f.queueDelete.Fails?
    || f.pending
    || (f.queueDelete.Succeeds? && !PendingElsewhere(v, destination, id) && !f.move.Skipped?
                && (f.move.Fails? || !CanSend(v, id)))
  }

  /** A permanent error of a remote attempt ends the run: the network's, or one of a statement after the delivery. */
  predicate GivesUp(v: View, destination: string, self: bool, id: nat, a: Attempt) {
    && Sendable(v, id, a) && !self
    && (a.send == Failed(PermanentError)
        || (a.send.Delivered? && a.faults.kind == PermanentError && RecordFails(v, destination, id, a.faults)))
  }

  /** This destination's row goes only for a delivery, for its age, or for a permanent error. */
  predicate RowKept(v: View, destination: string, self: bool, id: nat, a: Attempt) {
    && !((TooOld(v, id, a) || Delivers(v, self, id, a)) && a.faults.queueDelete.Succeeds?)
    && !(GivesUp(v, destination, self, id, a) && a.faults.retireDelete.Succeeds?)
  }

  /** Delivered to its last recipient, recorded, and moved to Sent. */
  predicate Sends(v: View, destination: string, self: bool, id: nat, a: Attempt) {
    && Delivers(v, self, id, a) && a.faults.queueDelete.Succeeds? && !PendingElsewhere(v, destination, id)
    && !a.faults.pending && a.faults.move.Succeeds? && CanSend(v, id)
  }

  predicate Expires(v: View, destination: string, id: nat, a: Attempt) {
    && TooOld(v, id, a) && a.faults.queueDelete.Succeeds? && !PendingElsewhere(v, destination, id)
    && !a.faults.pending && a.faults.mark.Succeeds?
  }

  predicate Rejects(v: View, destination: string, self: bool, id: nat, a: Attempt) {
    && GivesUp(v, destination, self, id, a) && !RowKept(v, destination, self, id, a)
    && !PendingElsewhere(v, destination, id) && !a.faults.retirePending && a.faults.mark.Succeeds?
  }

  /** The last row goes and the message stays, neither in Sent nor marked. */
  predicate Strands(v: View, destination: string, self: bool, id: nat, a: Attempt) {
    && Live(v, id) && !RowKept(v, destination, self, id, a) && !PendingElsewhere(v, destination, id)
    && !Sends(v, destination, self, id, a) && !Expires(v, destination, id, a) && !Rejects(v, destination, self, id, a)
  }

  /** Without failing statements that is a delivery to the last recipient of a message that cannot be moved to Sent. */
  lemma CleanStrands(v: View, destination: string, self: bool, id: nat, a: Attempt)
    requires a.faults == NO_FAULTS
    ensures Strands(v, destination, self, id, a) <==>
      Delivers(v, self, id, a) && !PendingElsewhere(v, destination, id) && !CanSend(v, id)
  {
  }

  // ----- One attempt changes one message -----

  /** What later attempts see of a message that this one was not about. */
  ghost predicate Untouched(v: View, w: View, id: nat) {
    && (Live(v, id) ==> Key(OUTBOX, id) in w.mail && w.mail[Key(OUTBOX, id)] == v.mail[Key(OUTBOX, id)])
    && (Live(w, id) ==> Live(v, id))
    && (forall q: QueueKey :: q.mail == Key(OUTBOX, id) && q in w.queue ==> q in v.queue)
    && (forall q: QueueKey :: q.mail == Key(OUTBOX, id) && Live(v, id) && q in v.queue ==> q in w.queue)
    && (Key(OUTBOX, id) in w.mail ==> Key(OUTBOX, id) in v.mail)
  }

  lemma SameUntouched(v: View, other: nat)
    ensures Untouched(v, v, other)
  {
  }

  lemma UntouchedTwice(u: View, v: View, w: View, id: nat)
    requires Untouched(u, v, id) && Untouched(v, w, id)
    ensures Untouched(u, w, id)
  {
  }

  lemma DropRowUntouched(v: View, destination: string, id: nat, fault: Write, other: nat)
    requires id != other || !fault.Succeeds?
    ensures Untouched(v, DropRow(v, destination, id, fault), other)
  {
  }

  lemma ExpungedUntouched(v: View, other: nat)
    ensures Untouched(v, Expunged(v, OUTBOX), other)
  {
  }

  lemma MarkedUntouched(v: View, id: nat, other: nat)
    requires id != other
    ensures Untouched(v, Marked(v, Key(OUTBOX, id)), other)
  {
  }

  lemma TransferUntouched(v: View, id: nat, other: nat)
    requires id != other && Key(OUTBOX, id) in v.mail
    ensures Untouched(v, Transfer(v, Key(OUTBOX, id), SENT), other)
  {
  }

  lemma PutUntouched(v: View, msg: Message, other: nat)
    ensures Untouched(v, Put(v, INBOX, msg), other)
  {
  }

  lemma RetireUntouched(v: View, destination: string, id: nat, delete: Write, pendingFails: bool, mark: Write,
                        other: nat)
    requires id != other
    ensures Untouched(v, Retire(v, destination, id, delete, pendingFails, mark).view, other)
  {
    hide Untouched, Marked, Pending, DropRow;
    var v1 := DropRow(v, destination, id, delete);
    DropRowUntouched(v, destination, id, delete, other);
    MarkedUntouched(v1, id, other);
    UntouchedTwice(v, v1, Marked(v1, Key(OUTBOX, id)), other);
  }

  lemma SettleUntouched(v: View, id: nat, f: Faults, other: nat)
    requires id != other
    ensures Untouched(v, Settle(v, id, f).view, other)
  {
    hide Untouched, Transfer, Pending;
    SameUntouched(v, other);
    if CanSend(v, id) {
      TransferUntouched(v, id, other);
    }
  }

  lemma ErrorUntouched(p: Progress, destination: string, id: nat, kind: ErrorKind, f: Faults, other: nat)
    requires id != other
    ensures Untouched(p.view, ProcessError(p, destination, id, kind, f).view, other)
  {
    hide Untouched, Retire;
    SameUntouched(p.view, other);
    RetireUntouched(p.view, destination, id, f.retireDelete, f.retirePending, f.mark, other);
  }

  lemma RemoteUntouched(p: Progress, destination: string, id: nat, a: Attempt, other: nat)
    requires id != other
    ensures Untouched(p.view, ProcessRemote(p, destination, id, a).view, other)
  {
    hide Untouched, Settle, DropRow, ProcessError;
    var v, f := p.view, a.faults;
    var v1 := DropRow(v, destination, id, f.queueDelete);
    var v2 := Settle(v1, id, f).view;
    DropRowUntouched(v, destination, id, f.queueDelete, other);
    SettleUntouched(v1, id, f, other);
    UntouchedTwice(v, v1, v2, other);
    if a.send.Failed? {
      ErrorUntouched(p, destination, id, a.send.kind, f, other);
    } else if f.queueDelete.Fails? {
      ErrorUntouched(p, destination, id, f.kind, f, other);
    } else if !Settle(v1, id, f).ok {
      ErrorUntouched(p.(view := v2), destination, id, f.kind, f, other);
      UntouchedTwice(v, v2, ProcessError(p.(view := v2), destination, id, f.kind, f).view, other);
    }
  }

  lemma SelfUntouched(p: Progress, destination: string, id: nat, a: Attempt, other: nat)
    requires id != other && Key(OUTBOX, id) in p.view.mail
    ensures Untouched(p.view, ProcessSelf(p, destination, id, a).view, other)
  {
    hide Untouched, Settle, DropRow, Put;
    var v, f := p.view, a.faults;
    var msg := Message(v.mail[Key(OUTBOX, id)].content, a.now, NO_FLAGS);
    var v1 := if f.create.Skipped? then v else Put(v, INBOX, msg);
    var v2 := DropRow(v1, destination, id, f.queueDelete);
    SameUntouched(v, other);
    PutUntouched(v, msg, other);
    DropRowUntouched(v1, destination, id, f.queueDelete, other);
    SettleUntouched(v2, id, f, other);
    UntouchedTwice(v, v1, v2, other);
    UntouchedTwice(v, v2, Settle(v2, id, f).view, other);
  }

  lemma ProcessUntouched(p: Progress, destination: string, self: bool, id: nat, a: Attempt, other: nat)
    requires QueueOk(p.view) && id != other
    ensures Untouched(p.view, Process(p, destination, self, id, a).view, other)
  {
    hide Untouched, Retire, Expunged, Pending, DropRow, ProcessRemote, ProcessSelf;
    var v, k, f := p.view, Key(OUTBOX, id), a.faults;
    var v1 := DropRow(v, destination, id, f.queueDelete);
    SameUntouched(v, other);
    DropRowUntouched(v, OUTBOX, id, f.queueDelete, other);
    DropRowUntouched(v, destination, id, f.queueDelete, other);
    ExpungedUntouched(v1, other);
    UntouchedTwice(v, v1, Expunged(v1, OUTBOX), other);
    RetireUntouched(v, destination, id, f.queueDelete, f.pending, f.mark, other);
    RemoteUntouched(p, destination, id, a, other);
    if k in v.mail {
      SelfUntouched(p, destination, id, a, other);
    }
  }

  // ----- What becomes of the message and the row the attempt is about -----

  /** The fate recorded for a message, and the copy in INBOX, with their exact causes. */
  ghost predicate FateIs(v: View, p: Progress, destination: string, self: bool, id: nat, a: Attempt) {
    && (FateOf(p, id).SentAs? <==> Sends(v, destination, self, id, a))
    && (forall t :: FateOf(p, id) == GivenUp(Expired(t)) <==> Expires(v, destination, id, a) && t == a.now)
    && (FateOf(p, id) == GivenUp(Rejected) <==> Rejects(v, destination, self, id, a))
    && (FateOf(p, id).OwnerDeleted? ==> !Live(v, id))
    && (id in p.copies <==> Copies(v, self, id, a))
  }

  /** A message its owner has deleted loses this destination's row, and goes for good with its last one, as far as the
      statements work. */
  ghost predicate Retracted(v: View, w: View, destination: string, id: nat, a: Attempt) {
    && !Live(w, id)
    && (!a.faults.select && a.faults.queueDelete.Succeeds? ==> !HasRow(w, destination, id))
    && (GoesForGood(v, destination, id, a.faults) ==> Key(OUTBOX, id) !in w.mail)
  }

  predicate GoesForGood(v: View, destination: string, id: nat, f: Faults) {
    && !f.select && f.queueDelete.Succeeds? && !PendingElsewhere(v, destination, id)
    && !f.pending && f.expunge.Succeeds?
  }

  /** The message and this destination's row. */
  ghost predicate RowIs(v: View, w: View, destination: string, self: bool, id: nat, a: Attempt) {
    if !Live(v, id) then Retracted(v, w, destination, id, a)
    else if RowKept(v, destination, self, id, a) then Untouched(v, w, id)
    else !HasRow(w, destination, id) && (Stranded(w, id) <==> Strands(v, destination, self, id, a))
  }

  ghost predicate Outcome(v: View, r: Progress, destination: string, self: bool, id: nat, a: Attempt) {
    && (r.stopped <==> GivesUp(v, destination, self, id, a))
    && FateIs(v, r, destination, self, id, a)
    && RowIs(v, r.view, destination, self, id, a)
  }

  lemma DroppedRow(v: View, destination: string, id: nat, fault: Write)
    requires HasRow(v, destination, id)
    ensures var w := DropRow(v, destination, id, fault);
      && (HasRow(w, destination, id) <==> !fault.Succeeds?)
      && (Pending(w, id) <==> !fault.Succeeds? || PendingElsewhere(v, destination, id))
      && (PendingElsewhere(w, destination, id) <==> PendingElsewhere(v, destination, id))
      && w.mail == v.mail && w.mailboxes == v.mailboxes
  {
    var w := DropRow(v, destination, id, fault);
    if fault.Succeeds? && PendingElsewhere(v, destination, id) {
      var q :| q in v.queue && q.mail == Key(OUTBOX, id) && q.destination != destination;
      assert q in w.queue;
    }
    assert !fault.Succeeds? ==> QueueKey(destination, Key(OUTBOX, id)) in w.queue;
  }

  /** The state a message is in once its row has been dealt with, before the last-recipient statement. */
  ghost predicate Remains(v: View, w: View, destination: string, id: nat, gone: bool)
    requires Key(OUTBOX, id) in v.mail
  {
    && Key(OUTBOX, id) in w.mail && w.mail[Key(OUTBOX, id)] == v.mail[Key(OUTBOX, id)]
    && (HasRow(w, destination, id) <==> !gone)
    && (Pending(w, id) <==> !gone || PendingElsewhere(v, destination, id))
    && w.mailboxes == v.mailboxes
    && (!gone ==> Untouched(v, w, id))
  }

  lemma DropRowRemains(v: View, w: View, destination: string, id: nat, fault: Write)
    requires Live(v, id) && HasRow(v, destination, id) && Remains(v, w, destination, id, false)
    requires PendingElsewhere(w, destination, id) <==> PendingElsewhere(v, destination, id)
    ensures Remains(v, DropRow(w, destination, id, fault), destination, id, fault.Succeeds?)
  {
    hide Untouched, Pending;
    DroppedRow(w, destination, id, fault);
    if !fault.Succeeds? {
      DropRowUntouched(w, destination, id, fault, id);
      UntouchedTwice(v, w, DropRow(w, destination, id, fault), id);
    }
  }

  lemma StartRemains(v: View, destination: string, id: nat)
    requires Live(v, id) && HasRow(v, destination, id)
    ensures Remains(v, v, destination, id, false)
  {
    assert QueueKey(destination, Key(OUTBOX, id)) in v.queue;
  }

  lemma RetireOwn(v: View, w: View, destination: string, id: nat, gone: bool, delete: Write, pendingFails: bool,
                  mark: Write)
    requires Live(v, id) && Remains(v, w, destination, id, gone)
    requires PendingElsewhere(w, destination, id) <==> PendingElsewhere(v, destination, id)
    ensures var r := Retire(w, destination, id, delete, pendingFails, mark);
      var kept := !gone && !delete.Succeeds?;
      && (r.marked <==> !kept && !PendingElsewhere(v, destination, id) && !pendingFails && mark.Succeeds?)
      && (kept ==> Untouched(v, r.view, id))
      && (!kept ==> !HasRow(r.view, destination, id))
      && (Stranded(r.view, id) <==> !kept && !PendingElsewhere(v, destination, id) && !r.marked)
  {
    var w1 := DropRow(w, destination, id, delete);
    if gone {
      assert w1.queue == w.queue;
      assert w1 == w;
    } else {
      DroppedRow(w, destination, id, delete);
      if !delete.Succeeds? {
        DropRowUntouched(w, destination, id, delete, id);
        UntouchedTwice(v, w, w1, id);
      }
    }
  }

  lemma ExpiryOwn(p: Progress, destination: string, self: bool, id: nat, a: Attempt)
    requires HasRow(p.view, destination, id) && TooOld(p.view, id, a)
    requires !p.stopped && id !in p.fates && id !in p.copies
    ensures Outcome(p.view, Process(p, destination, self, id, a), destination, self, id, a)
  {
    hide Retire, PendingElsewhere, Untouched, HasRow, Remains, Pending;
    var f := a.faults;
    StartRemains(p.view, destination, id);
    RetireOwn(p.view, p.view, destination, id, false, f.queueDelete, f.pending, f.mark);
  }

  /** The last-recipient check of a delivered message. */
  lemma SettleOwn(v: View, w: View, destination: string, id: nat, f: Faults)
    requires Live(v, id) && Remains(v, w, destination, id, f.queueDelete.Succeeds?) && QueueOk(w)
    ensures var settled, last := Settle(w, id, f), f.queueDelete.Succeeds? && !PendingElsewhere(v, destination, id);
      && (settled.ok <==> !f.pending && (!last || f.move.Skipped? || (f.move.Succeeds? && CanSend(v, id))))
      && (settled.fate.SentAs? <==> last && !f.pending && f.move.Succeeds? && CanSend(v, id))
      && (!settled.fate.SentAs? ==> settled.fate.Kept? && settled.view == w)
      && (settled.fate.SentAs? ==> !Live(settled.view, id) && !HasRow(settled.view, destination, id))
  {
    assert CanSend(w, id) <==> CanSend(v, id);
  }

  lemma StrandedRemains(v: View, w: View, destination: string, id: nat, gone: bool)
    requires Live(v, id) && Remains(v, w, destination, id, gone)
    ensures Stranded(w, id) <==> gone && !PendingElsewhere(v, destination, id)
  {
  }

  lemma SelfOwn(p: Progress, destination: string, id: nat, a: Attempt)
    requires HasRow(p.view, destination, id) && Sendable(p.view, id, a) && QueueOk(p.view)
    requires !p.stopped && id !in p.fates && id !in p.copies
    ensures Outcome(p.view, ProcessSelf(p, destination, id, a), destination, true, id, a)
  {
    hide PendingElsewhere, Untouched, HasRow, Remains, Pending, Settle, DropRow, Put, QueueOk, Stranded;
    var v, f := p.view, a.faults;
    if Delivers(v, true, id, a) {
      var msg := Message(v.mail[Key(OUTBOX, id)].content, a.now, NO_FLAGS);
      var v1 := if f.create.Skipped? then v else Put(v, INBOX, msg);
      var v2 := DropRow(v1, destination, id, f.queueDelete);
      StartRemains(v, destination, id);
      PutRemains(v, msg, destination, id);
      DropRowRemains(v, v1, destination, id, f.queueDelete);
      DropRowQueueOk(v1, destination, id, f.queueDelete);
      SettleOwn(v, v2, destination, id, f);
      StrandedRemains(v, v2, destination, id, f.queueDelete.Succeeds?);
      OwnRow(v, v2, Settle(v2, id, f), destination, id, f);
    } else {
      SameUntouched(v, id);
    }
  }

  /** The row and the message after a settlement. */
  lemma OwnRow(v: View, w: View, settled: Settled, destination: string, id: nat, f: Faults)
    requires Live(v, id) && Remains(v, w, destination, id, f.queueDelete.Succeeds?)
    requires !settled.fate.SentAs? ==> settled.view == w
    requires settled.fate.SentAs? ==>
      !Live(settled.view, id) && !HasRow(settled.view, destination, id) && f.queueDelete.Succeeds?
    ensures !f.queueDelete.Succeeds? ==> Untouched(v, settled.view, id)
    ensures f.queueDelete.Succeeds? ==> !HasRow(settled.view, destination, id)
    ensures Stranded(settled.view, id) <==>
      f.queueDelete.Succeeds? && !PendingElsewhere(v, destination, id) && !settled.fate.SentAs?
  {
    hide Untouched;
    StrandedRemains(v, w, destination, id, f.queueDelete.Succeeds?);
  }

  lemma PutRemains(v: View, msg: Message, destination: string, id: nat)
    requires Live(v, id) && HasRow(v, destination, id) && QueueOk(v)
    ensures var w := Put(v, INBOX, msg);
      && Remains(v, w, destination, id, false) && QueueOk(w)
      && (PendingElsewhere(w, destination, id) <==> PendingElsewhere(v, destination, id))
  {
    StartRemains(v, destination, id);
  }

  lemma DropRowQueueOk(v: View, destination: string, id: nat, fault: Write)
    requires QueueOk(v)
    ensures QueueOk(DropRow(v, destination, id, fault))
  {
  }

  lemma ErrorOwn(v: View, q: Progress, destination: string, id: nat, gone: bool, kind: ErrorKind, f: Faults)
    requires Live(v, id) && Remains(v, q.view, destination, id, gone)
    requires PendingElsewhere(q.view, destination, id) <==> PendingElsewhere(v, destination, id)
    requires !q.stopped && id !in q.fates && id !in q.copies
    ensures var r, permanent := ProcessError(q, destination, id, kind, f), kind == PermanentError;
      var kept := !gone && !(permanent && f.retireDelete.Succeeds?);
      && (r.stopped <==> permanent)
      && (FateOf(r, id) == GivenUp(Rejected) <==>
            permanent && !kept && !PendingElsewhere(v, destination, id) && !f.retirePending && f.mark.Succeeds?)
      && (FateOf(r, id) == GivenUp(Rejected) || FateOf(r, id) == Kept)
      && id !in r.copies
      && (kept ==> Untouched(v, r.view, id))
      && (!kept ==> !HasRow(r.view, destination, id))
      && (Stranded(r.view, id) <==>
            !kept && !PendingElsewhere(v, destination, id) && FateOf(r, id) != GivenUp(Rejected))
  {
    hide Retire, PendingElsewhere, Untouched, HasRow, Pending;
    RetireOwn(v, q.view, destination, id, gone, f.retireDelete, f.retirePending, f.mark);
    StrandedRemains(v, q.view, destination, id, gone);
  }

  lemma RemoteOwn(p: Progress, destination: string, id: nat, a: Attempt)
    requires HasRow(p.view, destination, id) && Sendable(p.view, id, a) && QueueOk(p.view)
    requires !p.stopped && id !in p.fates && id !in p.copies
    ensures Outcome(p.view, ProcessRemote(p, destination, id, a), destination, false, id, a)
  {
    hide PendingElsewhere, Untouched, HasRow, Remains, Pending, Settle, DropRow, QueueOk, ProcessError, Stranded;
    var v, f := p.view, a.faults;
    StartRemains(v, destination, id);
    if a.send.Failed? {
      ErrorOwn(v, p, destination, id, false, a.send.kind, f);
    } else if f.queueDelete.Fails? {
      ErrorOwn(v, p, destination, id, false, f.kind, f);
    } else {
      var v1 := DropRow(v, destination, id, f.queueDelete);
      DropRowRemains(v, v, destination, id, f.queueDelete);
      DropRowQueueOk(v, destination, id, f.queueDelete);
      DroppedRow(v, destination, id, f.queueDelete);
      SettleOwn(v, v1, destination, id, f);
      OwnRow(v, v1, Settle(v1, id, f), destination, id, f);
      if !Settle(v1, id, f).ok {
        ErrorOwn(v, p.(view := v1), destination, id, f.queueDelete.Succeeds?, f.kind, f);
      }
    }
  }

  lemma RetractedOwn(p: Progress, destination: string, self: bool, id: nat, a: Attempt)
    requires QueueOk(p.view) && !p.stopped && !Live(p.view, id)
    ensures Retracted(p.view, Process(p, destination, self, id, a).view, destination, id, a)
  {
    hide ProcessSelf, ProcessRemote, Retire;
    var v1 := DropRow(p.view, destination, id, a.faults.queueDelete);
    if a.faults.queueDelete.Succeeds? && Pending(v1, id) {
      var q :| q in v1.queue && q.mail == Key(OUTBOX, id);
      assert q in p.view.queue && q.destination != destination;
    }
  }

  lemma ProcessOwn(p: Progress, destination: string, self: bool, id: nat, a: Attempt)
    requires QueueOk(p.view) && !p.stopped && id !in p.fates && id !in p.copies
    requires Live(p.view, id) ==> HasRow(p.view, destination, id)
    ensures Outcome(p.view, Process(p, destination, self, id, a), destination, self, id, a)
  {
    hide ProcessSelf, ProcessRemote, Retire, PendingElsewhere, HasRow, RecordFails, Pending;
    if Live(p.view, id) && !a.faults.select {
      if TooOld(p.view, id, a) {
        ExpiryOwn(p, destination, self, id, a);
      } else if self {
        SelfOwn(p, destination, id, a);
      } else {
        RemoteOwn(p, destination, id, a);
      }
    } else if !Live(p.view, id) {
      RetractedOwn(p, destination, self, id, a);
    }
  }

  lemma StrandedStable(v: View, w: View, id: nat)
    requires Untouched(v, w, id)
    ensures Stranded(v, id) <==> Stranded(w, id)
  {
    if Live(v, id) && Pending(v, id) {
      var q :| q in v.queue && q.mail == Key(OUTBOX, id);
      assert q in w.queue;
    }
  }

  lemma SameRows(v: View, w: View, destination: string, id: nat)
    requires Untouched(v, w, id) && Live(v, id)
    ensures Live(w, id) && w.mail[Key(OUTBOX, id)] == v.mail[Key(OUTBOX, id)]
    ensures PendingElsewhere(w, destination, id) <==> PendingElsewhere(v, destination, id)
    ensures HasRow(w, destination, id) <==> HasRow(v, destination, id)
  {
    if PendingElsewhere(v, destination, id) {
      var q :| q in v.queue && q.mail == Key(OUTBOX, id) && q.destination != destination;
      assert q in w.queue;
    }
  }

  /** An untouched message is attempted as it would have been at the start of the run. */
  lemma SameOutcome(v0: View, v: View, r: Progress, destination: string, self: bool, id: nat, a: Attempt)
    requires Untouched(v0, v, id) && v.mailboxes == v0.mailboxes && Outcome(v, r, destination, self, id, a)
    ensures Outcome(v0, r, destination, self, id, a)
  {
    if Live(v0, id) {
      SameRows(v0, v, destination, id);
      hide Untouched, PendingElsewhere, Stranded, HasRow;
      if RowKept(v0, destination, self, id, a) {
        UntouchedTwice(v0, v, r.view, id);
      }
    }
  }

  // ----- The run -----

  ghost predicate StoppedBefore(v0: View, destination: string, self: bool, refs: seq<nat>, attempts: seq<Attempt>,
                                n: nat)
    requires |refs| == |attempts| && n <= |refs|
  {
    exists j :: 0 <= j < n && GivesUp(v0, destination, self, refs[j], attempts[j])
  }

  /** Reference j after the run has passed it. */
  ghost predicate Explained(v0: View, p: Progress, destination: string, self: bool, id: nat, a: Attempt,
                            stopped: bool) {
    if stopped then FateOf(p, id) == Kept && id !in p.copies && Untouched(v0, p.view, id)
    else FateIs(v0, p, destination, self, id, a) && RowIs(v0, p.view, destination, self, id, a)
  }

  lemma ExplainedStays(v0: View, p: Progress, r: Progress, destination: string, self: bool, id: nat, a: Attempt,
                       stopped: bool)
    requires Explained(v0, p, destination, self, id, a, stopped) && Untouched(p.view, r.view, id)
    requires FateOf(r, id) == FateOf(p, id) && (id in r.copies <==> id in p.copies)
    ensures Explained(v0, r, destination, self, id, a, stopped)
  {
    StrandedStable(p.view, r.view, id);
    if stopped || (Live(v0, id) && RowKept(v0, destination, self, id, a)) {
      UntouchedTwice(v0, p.view, r.view, id);
    }
  }

  ghost predicate AllExplained(v0: View, p: Progress, destination: string, self: bool, refs: seq<nat>,
                               attempts: seq<Attempt>)
    requires |refs| == |attempts|
  {
    && (p.stopped <==> StoppedBefore(v0, destination, self, refs, attempts, |refs|))
    && (forall id :: id !in refs ==> Untouched(v0, p.view, id))
    && (forall j :: 0 <= j < |refs| ==>
          Explained(v0, p, destination, self, refs[j], attempts[j],
                    StoppedBefore(v0, destination, self, refs, attempts, j)))
  }

  /** The references are those that the run lists: each once, each with its row. */
  ghost predicate ListedRun(v0: View, destination: string, refs: seq<nat>, attempts: seq<Attempt>) {
    && QueueOk(v0) && |refs| == |attempts| && AllDifferent(refs)
    && (forall j :: 0 <= j < |refs| ==> HasRow(v0, destination, refs[j]))
  }

  lemma StoppedPrefix(v0: View, destination: string, self: bool, refs: seq<nat>, attempts: seq<Attempt>, m: nat, n: nat)
    requires |refs| == |attempts| && m <= n <= |refs|
    ensures StoppedBefore(v0, destination, self, refs[..n], attempts[..n], m)
      <==> StoppedBefore(v0, destination, self, refs, attempts, m)
  {
    assert forall j :: 0 <= j < m ==> refs[..n][j] == refs[j] && attempts[..n][j] == attempts[j];
  }

  /** For every outcome of the network and every failing statement, the fate of each message and of each row of this
      destination is the one that the starting state and its own attempt determine: a message is moved to Sent exactly
      when it was delivered to its last recipient and that was recorded, given up as expired or rejected exactly when
      it was that and nobody else waits for it, and a row goes only for one of these reasons. */
  lemma {:induction false} RunExplained(v0: View, destination: string, self: bool, refs: seq<nat>,
                                        attempts: seq<Attempt>, retryCount: nat, permanentFailure: bool)
    requires ListedRun(v0, destination, refs, attempts)
    ensures var p := ProcessAll(Start(v0, retryCount, permanentFailure), destination, self, refs, attempts);
      AllExplained(v0, p, destination, self, refs, attempts)
  {
    hide Explained, Untouched, HasRow, GivesUp, Process;
    if refs == [] {
      forall id ensures Untouched(v0, v0, id) {
        SameUntouched(v0, id);
      }
    } else {
      var n := |refs| - 1;
      RunExplained(v0, destination, self, refs[..n], attempts[..n], retryCount, permanentFailure);
      var b := ProcessAll(Start(v0, retryCount, permanentFailure), destination, self, refs[..n], attempts[..n]);
      RunAccounts(v0, destination, self, refs[..n], attempts[..n], retryCount, permanentFailure);
      assert refs[n] !in refs[..n];
      StepExplained(v0, b, destination, self, refs, attempts);
    }
  }

  /** What the induction needs of the account: no dangling row, the same mailboxes, nothing recorded for later
      references. */
  lemma RunAccounts(v0: View, destination: string, self: bool, refs: seq<nat>, attempts: seq<Attempt>, retryCount: nat,
                    permanentFailure: bool)
    requires QueueOk(v0) && |refs| == |attempts| && AllDifferent(refs)
    ensures var p := ProcessAll(Start(v0, retryCount, permanentFailure), destination, self, refs, attempts);
      && QueueOk(p.view) && p.view.mailboxes == v0.mailboxes
      && forall id :: id in p.fates || id in p.copies ==> id in refs
  {
    RunConserves(v0, destination, self, refs, attempts, retryCount, permanentFailure, Fails);
  }

  lemma StepExplained(v0: View, b: Progress, destination: string, self: bool, refs: seq<nat>, attempts: seq<Attempt>)
    requires ListedRun(v0, destination, refs, attempts) && refs != []
    requires AllExplained(v0, b, destination, self, refs[..|refs| - 1], attempts[..|refs| - 1])
    requires refs[|refs| - 1] !in refs[..|refs| - 1] && QueueOk(b.view) && b.view.mailboxes == v0.mailboxes
    requires forall id :: id in b.fates || id in b.copies ==> id in refs[..|refs| - 1]
    ensures var p := Process(b, destination, self, refs[|refs| - 1], attempts[|refs| - 1]);
      AllExplained(v0, p, destination, self, refs, attempts)
  {
    hide Explained, Untouched, HasRow, GivesUp, Process, QueueOk, StoppedBefore;
    var n := |refs| - 1;
    var id, a := refs[n], attempts[n];
    var p := Process(b, destination, self, id, a);
    forall other | other != id
      ensures Untouched(b.view, p.view, other) && FateOf(p, other) == FateOf(b, other)
      ensures (other in p.copies <==> other in b.copies)
    {
      ProcessUntouched(b, destination, self, id, a, other);
      OtherFates(b, destination, self, id, a, other);
    }
    forall other | other !in refs ensures Untouched(v0, p.view, other) {
      assert other != refs[n] && other !in refs[..n];
      UntouchedTwice(v0, b.view, p.view, other);
    }
    StoppedPrefix(v0, destination, self, refs, attempts, n, n);
    EarlierExplained(v0, b, p, destination, self, refs, attempts);
    StoppedOne(v0, destination, self, refs, attempts, n);
    OwnExplained(v0, b, destination, self, id, a);
  }

  lemma StoppedOne(v0: View, destination: string, self: bool, refs: seq<nat>, attempts: seq<Attempt>, n: nat)
    requires |refs| == |attempts| && n < |refs|
    ensures StoppedBefore(v0, destination, self, refs, attempts, n + 1)
      <==> StoppedBefore(v0, destination, self, refs, attempts, n)
           || GivesUp(v0, destination, self, refs[n], attempts[n])
  {
    hide GivesUp;
  }

  /** What was explained before an attempt on another message still is. */
  lemma EarlierExplained(v0: View, b: Progress, p: Progress, destination: string, self: bool, refs: seq<nat>,
                         attempts: seq<Attempt>)
    requires |refs| == |attempts| && refs != [] && refs[|refs| - 1] !in refs[..|refs| - 1]
    requires AllExplained(v0, b, destination, self, refs[..|refs| - 1], attempts[..|refs| - 1])
    requires forall other :: other != refs[|refs| - 1] ==>
      && Untouched(b.view, p.view, other) && FateOf(p, other) == FateOf(b, other)
      && (other in p.copies <==> other in b.copies)
    ensures forall j :: 0 <= j < |refs| - 1 ==>
      Explained(v0, p, destination, self, refs[j], attempts[j], StoppedBefore(v0, destination, self, refs, attempts, j))
  {
    hide Explained, Untouched, StoppedBefore, FateOf;
    var n := |refs| - 1;
    forall j | 0 <= j < n
      ensures Explained(v0, p, destination, self, refs[j], attempts[j],
                        StoppedBefore(v0, destination, self, refs, attempts, j))
    {
      StoppedPrefix(v0, destination, self, refs, attempts, j, n);
      assert refs[..n][j] == refs[j] && attempts[..n][j] == attempts[j] && refs[j] in refs[..n];
      ExplainedStays(v0, b, p, destination, self, refs[j], attempts[j],
                     StoppedBefore(v0, destination, self, refs, attempts, j));
    }
  }

  lemma OtherFates(p: Progress, destination: string, self: bool, id: nat, a: Attempt, other: nat)
    requires id != other
    ensures var r := Process(p, destination, self, id, a);
      FateOf(r, other) == FateOf(p, other) && (other in r.copies <==> other in p.copies)
  {
  }

  lemma OwnExplained(v0: View, b: Progress, destination: string, self: bool, id: nat, a: Attempt)
    requires QueueOk(b.view) && b.view.mailboxes == v0.mailboxes && Untouched(v0, b.view, id)
    requires HasRow(v0, destination, id) && id !in b.fates && id !in b.copies
    ensures var p := Process(b, destination, self, id, a);
      && Explained(v0, p, destination, self, id, a, b.stopped)
      && (p.stopped <==> b.stopped || GivesUp(v0, destination, self, id, a))
  {
    hide Untouched, FateIs, RowIs, GivesUp, PendingElsewhere;
    if !b.stopped {
      if Live(b.view, id) {
        LiveBefore(v0, b.view, id);
        SameRows(v0, b.view, destination, id);
      }
      ProcessOwn(b, destination, self, id, a);
      SameOutcome(v0, b.view, Process(b, destination, self, id, a), destination, self, id, a);
    }
  }

  lemma LiveBefore(v0: View, v: View, id: nat)
    requires Untouched(v0, v, id) && Live(v, id)
    ensures Live(v0, id)
  {
  }

  // ----- After the deferred expunge -----

  /** What a run makes of the messages and the queue; by RunIsAfterRun, from whatever counters it starts. */
  function AfterRun(v0: View, destination: string, self: bool, refs: seq<nat>, attempts: seq<Attempt>,
                    expunge: Write): View
    requires |refs| == |attempts|
  {
    Finish(ProcessAll(Start(v0, 0, false), destination, self, refs, attempts), expunge).view
  }

  /** Alike in everything but the counters of the queue object. */
  predicate SameButCounters(p: Progress, r: Progress) {
    r.view == p.view && r.fates == p.fates && r.copies == p.copies && r.stopped == p.stopped
  }

  lemma ErrorIgnoresCounters(p: Progress, r: Progress, destination: string, id: nat, kind: ErrorKind, f: Faults)
    requires SameButCounters(p, r)
    ensures SameButCounters(ProcessError(p, destination, id, kind, f), ProcessError(r, destination, id, kind, f))
  {
    hide Retire;
  }

  lemma RemoteIgnoresCounters(p: Progress, r: Progress, destination: string, id: nat, a: Attempt)
    requires SameButCounters(p, r)
    ensures SameButCounters(ProcessRemote(p, destination, id, a), ProcessRemote(r, destination, id, a))
  {
    hide Settle, DropRow, ProcessError;
    var f := a.faults;
    var settled := Settle(DropRow(p.view, destination, id, f.queueDelete), id, f);
    if a.send.Failed? {
      ErrorIgnoresCounters(p, r, destination, id, a.send.kind, f);
    } else if f.queueDelete.Fails? {
      ErrorIgnoresCounters(p, r, destination, id, f.kind, f);
    } else {
      ErrorIgnoresCounters(p.(view := settled.view), r.(view := settled.view), destination, id, f.kind, f);
    }
  }

  lemma SelfIgnoresCounters(p: Progress, r: Progress, destination: string, id: nat, a: Attempt)
    requires SameButCounters(p, r) && Key(OUTBOX, id) in p.view.mail
    ensures SameButCounters(ProcessSelf(p, destination, id, a), ProcessSelf(r, destination, id, a))
  {
    hide Settle, DropRow, Put, Fresh;
  }

  lemma ProcessIgnoresCounters(p: Progress, r: Progress, destination: string, self: bool, id: nat, a: Attempt)
    requires SameButCounters(p, r)
    ensures SameButCounters(Process(p, destination, self, id, a), Process(r, destination, self, id, a))
  {
    hide Retire, DropRow, Pending, Expunged, ProcessRemote, ProcessSelf;
    RemoteIgnoresCounters(p, r, destination, id, a);
    if Key(OUTBOX, id) in p.view.mail {
      SelfIgnoresCounters(p, r, destination, id, a);
    }
  }

  lemma {:induction false} RunIgnoresCounters(p: Progress, r: Progress, destination: string, self: bool, refs: seq<nat>,
                                              attempts: seq<Attempt>)
    requires SameButCounters(p, r) && |refs| == |attempts|
    ensures SameButCounters(ProcessAll(p, destination, self, refs, attempts),
                            ProcessAll(r, destination, self, refs, attempts))
  {
    hide Process;
    if refs != [] {
      var n := |refs| - 1;
      RunIgnoresCounters(p, r, destination, self, refs[..n], attempts[..n]);
      ProcessIgnoresCounters(ProcessAll(p, destination, self, refs[..n], attempts[..n]),
                             ProcessAll(r, destination, self, refs[..n], attempts[..n]),
                             destination, self, refs[n], attempts[n]);
    }
  }

  /** Whatever failed before: a run does the same to the messages and the queue with any retry count and any mark of a
      permanent failure. */
  lemma RunIsAfterRun(v0: View, destination: string, self: bool, refs: seq<nat>, attempts: seq<Attempt>,
                      retryCount: nat, permanentFailure: bool, expunge: Write)
    requires |refs| == |attempts|
    ensures var p := ProcessAll(Start(v0, retryCount, permanentFailure), destination, self, refs, attempts);
      Finish(p, expunge).view == AfterRun(v0, destination, self, refs, attempts, expunge)
  {
    RunIgnoresCounters(Start(v0, retryCount, permanentFailure), Start(v0, 0, false), destination, self, refs, attempts);
  }

  lemma FinishUntouched(p: Progress, expunge: Write, id: nat)
    ensures Untouched(p.view, Finish(p, expunge).view, id)
  {
    ExpungedUntouched(p.view, id);
    SameUntouched(p.view, id);
  }

  /** The explanation outlives the deferred expunge. */
  lemma FinishExplained(v0: View, p: Progress, destination: string, self: bool, refs: seq<nat>, attempts: seq<Attempt>,
                        expunge: Write)
    requires |refs| == |attempts| && AllExplained(v0, p, destination, self, refs, attempts)
    ensures AllExplained(v0, Finish(p, expunge), destination, self, refs, attempts)
  {
    hide Explained, Untouched, GivesUp;
    var r := Finish(p, expunge);
    forall id ensures Untouched(p.view, r.view, id) {
      FinishUntouched(p, expunge, id);
    }
    forall id | id !in refs ensures Untouched(v0, r.view, id) {
      UntouchedTwice(v0, p.view, r.view, id);
    }
    forall j | 0 <= j < |refs|
      ensures Explained(v0, r, destination, self, refs[j], attempts[j],
                        StoppedBefore(v0, destination, self, refs, attempts, j))
    {
      ExplainedStays(v0, p, r, destination, self, refs[j], attempts[j],
                     StoppedBefore(v0, destination, self, refs, attempts, j));
    }
  }

  /** Which references keep their row: exactly those of live messages that failed temporarily, whose row could not be
      deleted, or that come after the end of the run. */
  ghost predicate StaysQueued(v0: View, destination: string, self: bool, refs: seq<nat>, attempts: seq<Attempt>, j: nat)
    requires |refs| == |attempts| && j < |refs|
  {
    && Live(v0, refs[j])
    && (StoppedBefore(v0, destination, self, refs, attempts, j) || RowKept(v0, destination, self, refs[j], attempts[j]))
  }

  /** Every failing statement included, the rows left are exactly those; and after the expunge no message marked
      deleted stays in Outbox. */
  lemma RunDrains(v0: View, destination: string, self: bool, refs: seq<nat>, attempts: seq<Attempt>, expunge: Write)
    requires ListedRun(v0, destination, refs, attempts)
    ensures var w := AfterRun(v0, destination, self, refs, attempts, expunge);
      && (forall j :: 0 <= j < |refs| && (expunge.Succeeds? || Live(v0, refs[j])) ==>
            (HasRow(w, destination, refs[j]) <==> StaysQueued(v0, destination, self, refs, attempts, j)))
      && (expunge.Succeeds? ==> forall k :: k in w.mail && k.mailbox == OUTBOX ==> !w.mail[k].flags.deleted)
  {
    var p := ProcessAll(Start(v0, 0, false), destination, self, refs, attempts);
    var w := AfterRun(v0, destination, self, refs, attempts, expunge);
    RunExplained(v0, destination, self, refs, attempts, 0, false);
    FinishExplained(v0, p, destination, self, refs, attempts, expunge);
    RunConserves(v0, destination, self, refs, attempts, 0, false, expunge);
    forall j | 0 <= j < |refs| && (expunge.Succeeds? || Live(v0, refs[j]))
      ensures HasRow(w, destination, refs[j]) <==> StaysQueued(v0, destination, self, refs, attempts, j)
    {
      assert Explained(v0, Finish(p, expunge), destination, self, refs[j], attempts[j],
                       StoppedBefore(v0, destination, self, refs, attempts, j));
      RowDrains(v0, Finish(p, expunge), destination, self, refs[j], attempts[j],
                StoppedBefore(v0, destination, self, refs, attempts, j));
    }
  }

  predicate InOutboxOrSent(p: Progress, id: nat) {
    Key(OUTBOX, id) in p.view.mail || (id in p.fates && p.fates[id].SentAs?)
  }

  lemma ErrorKeeps(p: Progress, destination: string, id: nat, kind: ErrorKind, f: Faults, other: nat)
    requires InOutboxOrSent(p, other) && (other == id ==> Key(OUTBOX, id) in p.view.mail)
    ensures InOutboxOrSent(ProcessError(p, destination, id, kind, f), other)
    ensures Key(OUTBOX, other) in p.view.mail ==>
      Key(OUTBOX, other) in ProcessError(p, destination, id, kind, f).view.mail
  {
    hide Pending;
  }

  lemma SettleKeeps(v: View, id: nat, f: Faults, other: nat)
    requires Key(OUTBOX, other) in v.mail
    ensures var r := Settle(v, id, f);
      (Key(OUTBOX, other) !in r.view.mail ==> r.ok && other == id && r.fate.SentAs?)
  {
    hide Pending;
  }

  lemma ProcessKeeps(p: Progress, destination: string, self: bool, id: nat, a: Attempt, other: nat)
    requires !a.faults.expunge.Succeeds? && InOutboxOrSent(p, other)
    ensures InOutboxOrSent(Process(p, destination, self, id, a), other)
  {
    hide Pending, Settle, ProcessError;
    var v, k, f := p.view, Key(OUTBOX, id), a.faults;
    if !p.stopped && !f.select && k in v.mail {
      if !v.mail[k].flags.deleted && a.now - v.mail[k].date <= UNDELIVERABLE_TIMEOUT_SECS {
        var w := DropRow(v, destination, id, f.queueDelete);
        if self && Key(OUTBOX, other) in v.mail {
          var copied := Put(v, INBOX, Message(v.mail[k].content, a.now, NO_FLAGS));
          SettleKeeps(w, id, f, other);
          SettleKeeps(DropRow(copied, destination, id, f.queueDelete), id, f, other);
        } else if !self {
          RemoteKeeps(p, destination, id, a, other);
        }
      }
    }
  }

  lemma RemoteKeeps(p: Progress, destination: string, id: nat, a: Attempt, other: nat)
    requires InOutboxOrSent(p, other) && Key(OUTBOX, id) in p.view.mail
    ensures InOutboxOrSent(ProcessRemote(p, destination, id, a), other)
  {
    hide Pending, Settle, ProcessError;
    var f := a.faults;
    var w := DropRow(p.view, destination, id, f.queueDelete);
    if a.send.Failed? {
      ErrorKeeps(p, destination, id, a.send.kind, f, other);
    } else if f.queueDelete.Fails? {
      ErrorKeeps(p, destination, id, f.kind, f, other);
    } else {
      var settled := Settle(w, id, f);
      SettleKeeps(w, id, f, id);
      if Key(OUTBOX, other) in p.view.mail {
        SettleKeeps(w, id, f, other);
      }
      if !settled.ok {
        ErrorKeeps(p.(view := settled.view), destination, id, f.kind, f, other);
      }
    }
  }

  /** Without an expunge, that of a retracted message or that at the end, no message leaves Outbox but to Sent. */
  lemma {:induction false} NothingExpunged(p: Progress, destination: string, self: bool, refs: seq<nat>,
                                           attempts: seq<Attempt>, expunge: Write, id: nat)
    requires |refs| == |attempts| && InOutboxOrSent(p, id) && !expunge.Succeeds?
    requires forall i :: 0 <= i < |attempts| ==> !attempts[i].faults.expunge.Succeeds?
    ensures InOutboxOrSent(Finish(ProcessAll(p, destination, self, refs, attempts), expunge), id)
  {
    hide Process;
    if refs != [] {
      var n := |refs| - 1;
      NothingExpunged(p, destination, self, refs[..n], attempts[..n], expunge, id);
      ProcessKeeps(ProcessAll(p, destination, self, refs[..n], attempts[..n]), destination, self, refs[n], attempts[n],
                   id);
    }
  }

  lemma RowDrains(v0: View, p: Progress, destination: string, self: bool, id: nat, a: Attempt, stopped: bool)
    requires Explained(v0, p, destination, self, id, a, stopped) && HasRow(v0, destination, id) && QueueOk(p.view)
    requires Live(v0, id) || forall k :: k in p.view.mail && k.mailbox == OUTBOX ==> !p.view.mail[k].flags.deleted
    ensures HasRow(p.view, destination, id) <==> Live(v0, id) && (stopped || RowKept(v0, destination, self, id, a))
  {
    hide RowKept;
    if HasRow(p.view, destination, id) {
      assert Key(OUTBOX, id) in p.view.mail;
    }
  }

  /** A destination is empty after its run exactly when no reference stays queued; in particular when every message
      waiting for it is deleted or too old, whatever the network does. */
  lemma QueueEmpties(v0: View, destination: string, self: bool, refs: seq<nat>, attempts: seq<Attempt>)
    requires ListedRun(v0, destination, refs, attempts)
    requires forall q :: q in v0.queue && q.destination == destination ==> q.mail.id in refs
    ensures (forall q :: q in AfterRun(v0, destination, self, refs, attempts, Succeeds).queue ==>
          q.destination != destination)
      <==> forall j :: 0 <= j < |refs| ==> !StaysQueued(v0, destination, self, refs, attempts, j)
    ensures (forall j :: 0 <= j < |refs| ==>
               !Live(v0, refs[j]) || (TooOld(v0, refs[j], attempts[j]) && attempts[j].faults.queueDelete.Succeeds?))
      ==> forall j :: 0 <= j < |refs| ==> !StaysQueued(v0, destination, self, refs, attempts, j)
  {
    var w := AfterRun(v0, destination, self, refs, attempts, Succeeds);
    RunDrains(v0, destination, self, refs, attempts, Succeeds);
    RunConserves(v0, destination, self, refs, attempts, 0, false, Succeeds);
    hide StaysQueued;
    OldRowsGo(v0, destination, self, refs, attempts);
    if forall j :: 0 <= j < |refs| ==> !StaysQueued(v0, destination, self, refs, attempts, j) {
      forall q | q in w.queue ensures q.destination != destination {
        assert q in v0.queue;
        if q.mail.id in refs {
          var j :| 0 <= j < |refs| && refs[j] == q.mail.id;
          assert !HasRow(w, destination, refs[j]);
        }
      }
    }
    forall j | 0 <= j < |refs| && StaysQueued(v0, destination, self, refs, attempts, j)
      ensures exists q :: q in w.queue && q.destination == destination
    {
      assert HasRow(w, destination, refs[j]);
    }
  }

  lemma OldRowsGo(v0: View, destination: string, self: bool, refs: seq<nat>, attempts: seq<Attempt>)
    requires |refs| == |attempts|
    ensures (forall j :: 0 <= j < |refs| ==>
               !Live(v0, refs[j]) || (TooOld(v0, refs[j], attempts[j]) && attempts[j].faults.queueDelete.Succeeds?))
      ==> forall j :: 0 <= j < |refs| ==> !StaysQueued(v0, destination, self, refs, attempts, j)
  {
  }

  /** No attempt the run comes to strands its message. */
  ghost predicate NoneStrands(v0: View, destination: string, self: bool, refs: seq<nat>, attempts: seq<Attempt>)
    requires |refs| == |attempts|
  {
    forall j :: 0 <= j < |refs| ==>
      StoppedBefore(v0, destination, self, refs, attempts, j) || !Strands(v0, destination, self, refs[j], attempts[j])
  }

  /** A run strands a message exactly when one of its attempts does. */
  lemma RunStrands(v0: View, destination: string, self: bool, refs: seq<nat>, attempts: seq<Attempt>, expunge: Write)
    requires ListedRun(v0, destination, refs, attempts) && NoStranded(v0)
    ensures NoStranded(AfterRun(v0, destination, self, refs, attempts, expunge))
      <==> NoneStrands(v0, destination, self, refs, attempts)
  {
    var p := ProcessAll(Start(v0, 0, false), destination, self, refs, attempts);
    var w := AfterRun(v0, destination, self, refs, attempts, expunge);
    RunExplained(v0, destination, self, refs, attempts, 0, false);
    FinishExplained(v0, p, destination, self, refs, attempts, expunge);
    hide Strands, Stranded, Explained, Untouched, StoppedBefore;
    forall j | 0 <= j < |refs|
      ensures Stranded(w, refs[j]) <==>
        !StoppedBefore(v0, destination, self, refs, attempts, j) && Strands(v0, destination, self, refs[j], attempts[j])
    {
      RefStrands(v0, Finish(p, expunge), destination, self, refs[j], attempts[j],
                 StoppedBefore(v0, destination, self, refs, attempts, j));
    }
    forall id | id !in refs ensures !Stranded(w, id) {
      StrandedStable(v0, w, id);
    }
  }

  lemma RefStrands(v0: View, p: Progress, destination: string, self: bool, id: nat, a: Attempt, stopped: bool)
    requires Explained(v0, p, destination, self, id, a, stopped) && !Stranded(v0, id)
    ensures Stranded(p.view, id) <==> !stopped && Strands(v0, destination, self, id, a)
  {
    if stopped || (Live(v0, id) && RowKept(v0, destination, self, id, a)) {
      StrandedStable(v0, p.view, id);
    }
  }

  /** What every run leaves of the queue: AfterRun, the rows of StaysQueued, and nothing stranded but by its
      attempts. */
  ghost predicate Drained(v0: View, w: View, destination: string, self: bool, refs: seq<nat>, attempts: seq<Attempt>,
                          expunge: Write) {
    && ListedRun(v0, destination, refs, attempts)
    && w == AfterRun(v0, destination, self, refs, attempts, expunge)
    && (forall j :: 0 <= j < |refs| && (expunge.Succeeds? || Live(v0, refs[j])) ==>
          (HasRow(w, destination, refs[j]) <==> StaysQueued(v0, destination, self, refs, attempts, j)))
    && (NoStranded(v0) ==> (NoStranded(w) <==> NoneStrands(v0, destination, self, refs, attempts)))
  }

  lemma RunDrained(v0: View, destination: string, self: bool, refs: seq<nat>, attempts: seq<Attempt>, retryCount: nat,
                   permanentFailure: bool, expunge: Write)
    requires ListedRun(v0, destination, refs, attempts)
    ensures var p := ProcessAll(Start(v0, retryCount, permanentFailure), destination, self, refs, attempts);
      Drained(v0, Finish(p, expunge).view, destination, self, refs, attempts, expunge)
  {
    hide AfterRun, StaysQueued, NoneStrands, NoStranded, HasRow, Live;
    RunIsAfterRun(v0, destination, self, refs, attempts, retryCount, permanentFailure, expunge);
    RunDrains(v0, destination, self, refs, attempts, expunge);
    if NoStranded(v0) {
      RunStrands(v0, destination, self, refs, attempts, expunge);
    }
  }
}
