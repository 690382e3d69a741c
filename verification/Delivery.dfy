// What one run of a destination's queue does to the messages and the queue, for
// every outcome of the network and every failing storage statement:
// Queue.run in sender.go, on the plain view of the store.

module Delivery {
  import opened Types
  import opened StoreModel

  /** 7 days, in seconds. */
  const UNDELIVERABLE_TIMEOUT_SECS := 604800

  /** How isNetworkError and isPermanentError classify an error. */
  datatype ErrorKind = NetworkError | PermanentError | UnknownError

  datatype Send = Delivered | Failed(kind: ErrorKind)

  /** Which storage statements fail, or are skipped, while one reference is handled; `kind` is how their errors
      classify where the code classifies them, and the last two are the statements after a permanent error. */
  datatype Faults = Faults(select: bool, queueDelete: Write, pending: bool, mark: Write, expunge: Write,
                           create: Write, move: Write, kind: ErrorKind, retireDelete: Write, retirePending: bool)

  const NO_FAULTS :=
    Faults(false, Succeeds, false, Succeeds, Succeeds, Succeeds, Succeeds, UnknownError, Succeeds, false)

  datatype Attempt = Attempt(now: int, send: Send, faults: Faults)

  datatype Reason = Expired(now: int) | Rejected

  /** What became of one message: nothing to say, moved to Sent under a new id, marked for removal, or
      retired because its owner deleted it. */
  datatype Fate = Kept | SentAs(id: nat) | GivenUp(reason: Reason) | OwnerDeleted

  // ----- Statements -----

  function DeleteRow(v: View, destination: string, id: nat): View {
    v.(queue := v.queue - {QueueKey(destination, Key(OUTBOX, id))})
  }

  predicate Pending(v: View, id: nat) {
    exists q :: q in v.queue && q.mail == Key(OUTBOX, id)
  }

  /** MailMoveWithFileStore from Outbox to Sent, as MoveRefines states it. */
  predicate CanSend(v: View, id: nat) {
    Key(OUTBOX, id) in v.mail && v.mail[Key(OUTBOX, id)].content != [] && SENT in v.mailboxes
  }

  /** DeleteRow, as far as its task is carried out. */
  function DropRow(v: View, destination: string, id: nat, fault: Write): View {
    if fault.Succeeds? then DeleteRow(v, destination, id) else v
  }

  datatype Retired = Retired(view: View, marked: bool)

  /** Delete the row and, if it was the last, mark the message: the expiry and permanent-error branches. */
  function Retire(v: View, destination: string, id: nat, delete: Write, pendingFails: bool, mark: Write): Retired {
    var v1 := DropRow(v, destination, id, delete);
    if !pendingFails && !Pending(v1, id) && mark.Succeeds? then Retired(Marked(v1, Key(OUTBOX, id)), true)
    else Retired(v1, false)
  }

  // ----- The run -----

  /** A run in progress: `fates` and `copies` record, by Outbox id, what happened to each message and
      under which INBOX id a self-send delivered it. */
  datatype Progress = Progress(
    view: View,
    fates: map<nat, Fate>,
    copies: map<nat, nat>,
    retryCount: nat,
    permanentFailure: bool,
    stopped: bool)

  function Start(v: View, retryCount: nat, permanentFailure: bool): Progress {
    Progress(v, map[], map[], retryCount, permanentFailure, false)
  }

  /** The last-recipient check after a row was deleted: the message moves to Sent when nothing is pending. */
  datatype Settled = Settled(view: View, fate: Fate, ok: bool)

  function Settle(v: View, id: nat, f: Faults): Settled {
    if f.pending then Settled(v, Kept, false)
    else if Pending(v, id) || f.move.Skipped? then Settled(v, Kept, true)
    else if f.move.Fails? || !CanSend(v, id) then Settled(v, Kept, false)
    else Settled(Transfer(v, Key(OUTBOX, id), SENT), SentAs(Fresh(v, SENT).id), true)
  }

  /** One reference. `self` says that the destination is this node. */
  function Process(p: Progress, destination: string, self: bool, id: nat, a: Attempt): Progress {
    var v, k, f := p.view, Key(OUTBOX, id), a.faults;
    if p.stopped || f.select then p
    else if k !in v.mail then
      p.(view := DropRow(v, OUTBOX, id, f.queueDelete))   // the destination argument is the mailbox name
    else if v.mail[k].flags.deleted then
      var v1 := DropRow(v, destination, id, f.queueDelete);
      var last := !f.pending && !Pending(v1, id);
      p.(view := if last && f.expunge.Succeeds? then Expunged(v1, OUTBOX) else v1, fates := p.fates[id := OwnerDeleted])
    else if a.now - v.mail[k].date > UNDELIVERABLE_TIMEOUT_SECS then
      var r := Retire(v, destination, id, f.queueDelete, f.pending, f.mark);
      p.(view := r.view, fates := p.fates[id := if r.marked then GivenUp(Expired(a.now)) else Kept])
    else if self then
      ProcessSelf(p, destination, id, a)
    else
      ProcessRemote(p, destination, id, a)
  }

  /** Delivery to this node's own INBOX. A skipped insert passes for a delivery. */
  function ProcessSelf(p: Progress, destination: string, id: nat, a: Attempt): Progress
    requires Key(OUTBOX, id) in p.view.mail
  {
    var v, f := p.view, a.faults;
    if f.create.Fails? || (f.create.Succeeds? && INBOX !in v.mailboxes) then p.(retryCount := p.retryCount + 1)
    else
      var copied := if f.create.Skipped? then p
                    else p.(view := Put(v, INBOX, Message(v.mail[Key(OUTBOX, id)].content, a.now, NO_FLAGS)),
                            copies := p.copies[id := Fresh(v, INBOX).id]);
      var settled := Settle(DropRow(copied.view, destination, id, f.queueDelete), id, f);
      copied.(view := settled.view, fates := p.fates[id := settled.fate], retryCount := 0)
  }

  function ProcessRemote(p: Progress, destination: string, id: nat, a: Attempt): Progress {
    var v, f := p.view, a.faults;
    if a.send.Failed? then ProcessError(p, destination, id, a.send.kind, f)
    else if f.queueDelete.Fails? then ProcessError(p, destination, id, f.kind, f)
    else
      var settled := Settle(DropRow(v, destination, id, f.queueDelete), id, f);
      if settled.ok then
        p.(view := settled.view, fates := p.fates[id := settled.fate], retryCount := 0, permanentFailure := false)
      else ProcessError(p.(view := settled.view), destination, id, f.kind, f)
  }

  /** An error of a remote delivery: retry later, or give the recipient up and end the run. */
  function ProcessError(p: Progress, destination: string, id: nat, kind: ErrorKind, f: Faults): Progress {
    if kind != PermanentError then p.(retryCount := p.retryCount + 1)
    else
      var r := Retire(p.view, destination, id, f.retireDelete, f.retirePending, f.mark);
      p.(view := r.view, fates := p.fates[id := if r.marked then GivenUp(Rejected) else Kept],
         permanentFailure := true, stopped := true)
  }

  function ProcessAll(p: Progress, destination: string, self: bool, refs: seq<nat>, attempts: seq<Attempt>): Progress
    requires |refs| == |attempts|
  {
    if refs == [] then p
    else
      var n := |refs| - 1;
      Process(ProcessAll(p, destination, self, refs[..n], attempts[..n]), destination, self, refs[n], attempts[n])
  }

  /** The deferred expunge that ends every run. */
  function Finish(p: Progress, expunge: Write): Progress {
    if expunge.Succeeds? then p.(view := Expunged(p.view, OUTBOX)) else p
  }
}
