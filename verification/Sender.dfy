// sender.go: the per-destination queue worker and the enqueueing front, run
// statement by statement on the storage classes.

module Sender {
  import opened Types
  import opened Paths
  import opened StoreModel
  import opened Refinement
  import opened FileStorage
  import opened Streams
  import opened Sequence
  import opened Storage
  import opened Delivery
  import opened Backoff
  import opened Counters
  import opened Drain
  import Conservation
  import Enqueue
  import Address

  /** Everything a run cannot choose: the time it starts, the jitter, how long it oversleeps, and how its first and last
      statements fare. */
  datatype Surroundings = Surroundings(now: int, jitter: real, oversleep: nat, listFails: bool, expunge: Write)

  /** What can be refused before a message is transferred. */
  datatype Stage = Dial | Greeting | Hello | MailFrom | RcptTo | DataCommand

  /** The other node during one attempt: where it refuses, how its errors classify, after how many writes the
      connection breaks; and how this node's own source of the message behaves. */
  datatype Line = Line(
    openFails: bool, refuses: Option<Stage>, kind: ErrorKind, capacity: Option<nat>,
    script: seq<nat>, eager: bool, readFails: bool)

  /** What one attempt meets. `cause` is how the statements of a move to Sent fail. */
  datatype Conditions = Conditions(now: int, line: Line, faults: Faults, cause: MoveFaults)

  /** What the other node was given: the envelope, the announced size, and the bytes handed to its DATA writer. */
  datatype Wire = Wire(envelope: Envelope, size: nat, data: Bytes)

  ghost predicate Ready(s: Store, names: set<string>) {
    Valid(s) && Fits(s, names) && OUTBOX in names && SENT in names && INBOX in names
  }

  /** The failures of a move that leave its source or restore it. */
  predicate Restores(cause: MoveFaults) {
    !cause.delete && !cause.renameBack
  }

  /** An attempt under given conditions: only the answer of the network and the effects of `cause` and of a file that
      cannot be opened remain to be found out. */
  ghost predicate IsAttempt(a: Attempt, c: Conditions) {
    && a.now == c.now
    && a.faults == c.faults.(move := a.faults.move, create := a.faults.create)
    && (a.faults.create == c.faults.create || (c.line.openFails && a.faults.create.Fails?))
    && (c.cause == NO_MOVE_FAULTS ==> a.faults.move.Succeeds?)
    && (a.send.Delivered? || a.send == Failed(c.line.kind))
  }

  /** Nothing on the way to the other node fails. */
  predicate IsClear(line: Line) {
    !line.openFails && line.refuses.None? && !line.readFails && line.capacity.None?
  }

  /** A remote attempt delivers exactly by handing over the message, under the envelope of its row; it does so when
      nothing on the way fails, and not when the other node refuses or the source breaks. */
  ghost predicate WireOk(v: View, destination: string, self: bool, id: nat, c: Conditions, a: Attempt,
                         wire: Option<Wire>) {
    !self && Sendable(v, id, a) && HasRow(v, destination, id) ==>
      Handed(v.mail[Key(OUTBOX, id)].content, v.queue[QueueKey(destination, Key(OUTBOX, id))], c.line, a.send, wire)
  }

  ghost predicate Handed(content: Bytes, envelope: Envelope, line: Line, send: Send, wire: Option<Wire>) {
    && wire.Some?
    && wire.value.data <= content
    && (send.Delivered? ==> wire.value == Wire(envelope, |content|, content))
    && (IsClear(line) ==> send.Delivered?)
    && (send.Delivered? ==> line.refuses.None? && !line.readFails)
  }

  class Queue {
    const storage: SQLite3Storage
    const destination: string
    const publicKey: Bytes
    var retryCount: nat
    var lastAttempt: Option<int>
    var permanentFailure: bool

    constructor (storage: SQLite3Storage, destination: string, publicKey: Bytes)
      ensures this.storage == storage && this.destination == destination && this.publicKey == publicKey
      ensures retryCount == 0 && lastAttempt == None && !permanentFailure
    {
      this.storage, this.destination, this.publicKey := storage, destination, publicKey;
      retryCount, lastAttempt, permanentFailure := 0, None, false;
    }

    ghost function Messages(): View
      reads this, storage, storage.disk
      requires Valid(storage.State())
    {
      ViewOf(storage.State())
    }

    predicate IsSelf() {
      destination == Address.Encode(publicKey)
    }

    /** ResetRetryCounters, for one queue. */
    method ResetRetryCounter()
      modifies this
      ensures retryCount == 0 && lastAttempt == None && !permanentFailure
    {
      retryCount, lastAttempt, permanentFailure := 0, None, false;
    }

    method DropRow(id: nat, fault: Write, ghost names: set<string>) returns (r: Result<()>)
      requires Ready(storage.State(), names)
      modifies storage
      ensures Ready(storage.State(), names) && storage.mails == old(storage.mails)
      ensures Messages() == Delivery.DropRow(old(Messages()), destination, id, fault)
      ensures !fault.Succeeds? ==> Messages() == old(Messages())
      ensures r.Ok? == !fault.Fails?
    {
      hide RelPath, RowOk, References, Exclusive;
      QueueRefines(storage.State(), destination, id, Envelope("", ""), Succeeds);
      r := storage.QueueDeleteDestinationForID(destination, id, fault);
    }

    /** The last-recipient check: move the message to Sent when nothing is pending. `move` is how that fared. */
    method SettleMessage(id: nat, f: Faults, cause: MoveFaults, ghost names: set<string>)
      returns (ok: bool, ghost fate: Fate, ghost move: Write)
      requires Ready(storage.State(), names) && Key(OUTBOX, id) in storage.mails && Restores(cause)
      modifies storage, storage.disk
      ensures Ready(storage.State(), names)
      ensures cause == NO_MOVE_FAULTS ==> move.Succeeds?
      ensures Settled(Messages(), fate, ok) == Settle(old(Messages()), id, f.(move := move))
      ensures !ok ==> Messages() == old(Messages())
    {
      hide RelPath, RowOk, References, Exclusive, Distinct, Movable, Move;
      ghost var s := storage.State();
      move := if cause.begin then Skipped else Succeeds;
      if f.pending {
        return false, Kept, move;
      }
      var remaining := storage.QueueSelectIsMessagePendingSend(OUTBOX, id);
      if remaining {
        return true, Kept, move;
      }
      MoveOutcome(s, names, id, cause);
      var moved := storage.MailMoveWithFileStore(OUTBOX, id, SENT, storage.disk, cause);
      ok := moved.Ok?;
      fate := if moved.Ok? && !cause.begin then SentAs(moved.value) else Kept;
      if moved.Err? && cause != NO_MOVE_FAULTS {
        move := Fails;
      }
    }

    /** Delete the row and mark the message when it was the last. */
    method RetireMessage(id: nat, delete: Write, pendingFails: bool, mark: Write, ghost names: set<string>)
      returns (ghost marked: bool)
      requires Ready(storage.State(), names)
      modifies storage
      ensures Ready(storage.State(), names)
      ensures Retired(Messages(), marked) == Retire(old(Messages()), destination, id, delete, pendingFails, mark)
    {
      hide RelPath, RowOk, References, Exclusive, Delivery.DropRow;
      var _ := DropRow(id, delete, names);
      marked := false;
      if !pendingFails {
        var remaining := storage.QueueSelectIsMessagePendingSend(OUTBOX, id);
        if !remaining {
          FlagsRefine(storage.State(), Key(OUTBOX, id), NO_FLAGS);
          var _ := storage.MailDelete(OUTBOX, id, mark);
          marked := mark.Succeeds?;
        }
      }
    }

    /** An error of a remote delivery. */
    method HandleError(id: nat, kind: ErrorKind, f: Faults, ghost names: set<string>, ghost p: Progress)
      returns (stop: bool, ghost r: Progress)
      requires Ready(storage.State(), names)
      requires p.view == Messages() && p.retryCount == retryCount && p.permanentFailure == permanentFailure
      requires !p.stopped
      modifies this`retryCount, this`permanentFailure, storage
      ensures Ready(storage.State(), names)
      ensures r == ProcessError(p, destination, id, kind, f)
      ensures r.view == Messages() && r.retryCount == retryCount && r.permanentFailure == permanentFailure
      ensures r.stopped == stop
    {
      stop := false;
      if kind == PermanentError {
        permanentFailure := true;
        ghost var marked := RetireMessage(id, f.retireDelete, f.retirePending, f.mark, names);
        stop := true;
      } else {
        retryCount := retryCount + 1;
      }
      r := ProcessError(p, destination, id, kind, f);
    }

    /** One conversation with the other node: open the message in whichever tier holds it, dial, announce sender, size
        and recipient, and hand over the bytes. */
    method Transmit(id: nat, envelope: Envelope, line: Line) returns (ok: bool, wire: Wire)
      requires Valid(storage.State()) && Key(OUTBOX, id) in storage.mails
      ensures Key(OUTBOX, id) in Messages().mail
      ensures var content := Messages().mail[Key(OUTBOX, id)].content;
        && wire.data <= content
        && (ok ==> wire == Wire(envelope, |content|, content))
        && (ok ==> line.refuses.None? && !line.readFails)
        && (IsClear(line) ==> ok)
    {
      hide RelPath;
      var row := storage.mails[Key(OUTBOX, id)];
      assert RowOk(storage.State(), Key(OUTBOX, id));
      var content := storage.ReadContent(row, line.openFails);
      var mailSize := if row.mailFile.Some? then row.size else |row.mail.value|;
      wire := Wire(envelope, mailSize, []);
      if content.Err? || line.refuses.Some? {
        return false, wire;
      }
      var mailReader := new Reader([], content.value, line.script, line.eager, line.readFails);
      assert mailReader.Rest() == content.value;
      var writer := new DataWriter(line.capacity);
      var sent, totalSent := SendChunks(mailReader, writer);
      assert [] + content.value == content.value;
      return sent, wire.(data := writer.written);
    }

    /** Delivery to another node: what its conversation comes to decides what happens to the row. */
    method SendRemote(id: nat, envelope: Envelope, c: Conditions, ghost names: set<string>, ghost p: Progress)
      returns (stop: bool, wire: Wire, ghost a: Attempt, ghost r: Progress)
      requires Ready(storage.State(), names) && Key(OUTBOX, id) in storage.mails && Restores(c.cause)
      requires p.view == Messages() && p.retryCount == retryCount && p.permanentFailure == permanentFailure
      requires !p.stopped
      modifies this`retryCount, this`permanentFailure, storage, storage.disk
      ensures Ready(storage.State(), names)
      ensures IsAttempt(a, c) && a.faults.create == c.faults.create
      ensures Handed(old(Messages()).mail[Key(OUTBOX, id)].content, envelope, c.line, a.send, Some(wire))
      ensures r == ProcessRemote(p, destination, id, a)
      ensures r.view == Messages() && r.retryCount == retryCount && r.permanentFailure == permanentFailure
      ensures r.stopped == stop
    {
      hide Valid, Fits, Settle, ProcessError, ProcessRemote, Delivery.DropRow, ViewOf;
      var f, sent := c.faults, false;
      sent, wire := Transmit(id, envelope, c.line);
      ghost var move := if c.cause == NO_MOVE_FAULTS then Succeeds else f.move;
      a := Attempt(c.now, if sent then Delivered else Failed(c.line.kind), f.(move := move));
      if !sent {
        stop, r := HandleError(id, c.line.kind, f, names, p);
        RemoteFailed(p, destination, id, f, a);
        return;
      }
      var ok;
      ghost var settled;
      ok, settled, move := RecordRemote(id, f, c.cause, names);
      a := a.(faults := f.(move := move));
      if !ok {
        stop, r := HandleError(id, f.kind, f, names, p.(view := settled.view));
        RemoteUnrecorded(p, destination, id, f, a, settled);
        return;
      }
      RemoteRecorded(p, destination, id, f, a, settled);
      retryCount := 0;
      permanentFailure := false;
      stop := false;
      r := ProcessRemote(p, destination, id, a);
    }

    /** After a remote delivery: the row, and the last-recipient check unless deleting the row was an error. */
    method RecordRemote(id: nat, f: Faults, cause: MoveFaults, ghost names: set<string>)
      returns (ok: bool, ghost settled: Settled, ghost move: Write)
      requires Ready(storage.State(), names) && Key(OUTBOX, id) in storage.mails && Restores(cause)
      modifies storage, storage.disk
      ensures Ready(storage.State(), names)
      ensures cause == NO_MOVE_FAULTS ==> move.Succeeds?
      ensures settled == Recording(old(Messages()), destination, id, f.(move := move))
      ensures settled.view == Messages() && settled.ok == ok
    {
      hide Valid, Fits, Settle, Delivery.DropRow, ViewOf;
      move := if cause == NO_MOVE_FAULTS then Succeeds else f.move;
      var deleted := DropRow(id, f.queueDelete, names);
      if deleted.Err? {
        return false, Settled(Messages(), Kept, false), move;
      }
      ghost var fate;
      ok, fate, move := SettleMessage(id, f, cause, names);
      settled := Settled(Messages(), fate, ok);
    }

    /** A copy in this node's own INBOX, from whichever tier holds the message. */
    method CopyToInbox(id: nat, row: Row, now: int, openFails: bool, create: Write, ghost names: set<string>)
      returns (ok: bool, ghost created: Write)
      requires Ready(storage.State(), names) && Key(OUTBOX, id) in storage.mails
      requires storage.mails[Key(OUTBOX, id)] == row
      modifies storage, storage.disk
      ensures Ready(storage.State(), names) && Key(OUTBOX, id) in storage.mails
      ensures created == create || (openFails && created.Fails?)
      ensures ok == (created.Skipped? || (created.Succeeds? && INBOX in old(storage.mailboxes)))
      ensures Messages() == if ok && created.Succeeds? then CopiedTo(old(Messages()), id, now) else old(Messages())
    {
      hide RelPath, References, Exclusive, Distinct;
      ghost var s := storage.State();
      assert RowOk(s, Key(OUTBOX, id));
      created := create;
      var delivered;
      if row.mailFile.Some? {
        var content := storage.ReadContent(row, openFails);
        if content.Err? {
          return false, Fails;
        }
        var reader := new Reader.OfBytes(content.value);
        var streamFaults := NO_STREAM_FAULTS.(insert := create);
        CreateFromStreamRefines(s, names, INBOX, content.value, now, streamFaults);
        StreamAccepted(s, INBOX, content.value, now, create);
        delivered := storage.MailCreateFromStream(INBOX, reader, storage.disk, now, streamFaults);
      } else {
        CreateRefines(s, INBOX, row.mail.value, now, create);
        delivered := storage.MailCreate(INBOX, row.mail.value, now, create);
      }
      ok := delivered.Ok?;
    }

    /** After a self-send: the row, whose error is ignored, and the last-recipient check. */
    method RecordSelf(id: nat, f: Faults, cause: MoveFaults, ghost names: set<string>)
      returns (ghost settled: Settled, ghost move: Write)
      requires Ready(storage.State(), names) && Key(OUTBOX, id) in storage.mails && Restores(cause)
      modifies storage, storage.disk
      ensures Ready(storage.State(), names)
      ensures cause == NO_MOVE_FAULTS ==> move.Succeeds?
      ensures settled == Settle(Delivery.DropRow(old(Messages()), destination, id, f.queueDelete), id, f.(move := move))
      ensures settled.view == Messages()
    {
      hide Valid, Fits, Settle, Delivery.DropRow, ViewOf;
      var _ := DropRow(id, f.queueDelete, names);
      var ok;
      ghost var fate;
      ok, fate, move := SettleMessage(id, f, cause, names);
      settled := Settled(Messages(), fate, ok);
    }

    /** Delivery to this node itself. */
    method SendSelf(id: nat, row: Row, c: Conditions, ghost names: set<string>, ghost p: Progress)
      returns (ghost a: Attempt, ghost r: Progress)
      requires Ready(storage.State(), names) && Key(OUTBOX, id) in storage.mails
      requires storage.mails[Key(OUTBOX, id)] == row
      requires p.view == Messages() && p.retryCount == retryCount && p.permanentFailure == permanentFailure
      requires !p.stopped
      requires Restores(c.cause)
      modifies this`retryCount, this`permanentFailure, storage, storage.disk
      ensures Ready(storage.State(), names)
      ensures IsAttempt(a, c)
      ensures r == ProcessSelf(p, destination, id, a)
      ensures r.view == Messages() && r.retryCount == retryCount && r.permanentFailure == permanentFailure && !r.stopped
    {
      hide RelPath, Valid, Fits, Settle, Fresh, CopiedTo, Restores, Delivery.DropRow, ProcessSelf, ViewOf, SelfAttempt,
        IsAttempt;
      SameTables(storage.State());
      ghost var move := if c.cause == NO_MOVE_FAULTS then Succeeds else c.faults.move;
      var delivered, created := CopyToInbox(id, row, c.now, c.line.openFails, c.faults.create, names);
      if !delivered {
        retryCount := retryCount + 1;
        a := SelfAttempt(c, created, move);
        SelfRefused(p, destination, id, c, created, move);
      } else {
        ghost var copied := SelfCopied(p, id, c, created);
        SelfCopiedView(p, id, c, created);
        ghost var settled;
        settled, move := RecordSelf(id, c.faults, c.cause, names);
        a := SelfAttempt(c, created, move);
        SelfDelivered(p, destination, id, c, created, move, copied, settled);
        retryCount := 0;
      }
      r := ProcessSelf(p, destination, id, a);
      SelfIsAttempt(c, created, move);
    }

    /** The owner deleted the message: drop the row and, if it was the last, expunge Outbox. */
    method DropDeleted(id: nat, f: Faults, ghost names: set<string>)
      requires Ready(storage.State(), names)
      modifies storage
      ensures Ready(storage.State(), names)
      ensures var v1 := Delivery.DropRow(old(Messages()), destination, id, f.queueDelete);
        Messages() == if !f.pending && !Pending(v1, id) && f.expunge.Succeeds? then Expunged(v1, OUTBOX) else v1
    {
      hide RelPath, References, Exclusive, RowOk, Expunged, Delivery.DropRow;
      var _ := DropRow(id, f.queueDelete, names);
      if !f.pending {
        var remaining := storage.QueueSelectIsMessagePendingSend(OUTBOX, id);
        if !remaining {
          ExpungeOutbox(f.expunge, names);
        }
      }
    }

    /** MailExpunge of Outbox, without a file store; its error is ignored. */
    method ExpungeOutbox(fault: Write, ghost names: set<string>)
      requires Ready(storage.State(), names)
      modifies storage
      ensures Ready(storage.State(), names)
      ensures Messages() == if fault.Succeeds? then Expunged(old(Messages()), OUTBOX) else old(Messages())
    {
      hide RelPath, References, Exclusive, RowOk, Expunged;
      var f := NO_EXPUNGE_FAULTS.(begin := fault.Skipped?, delete := fault.Fails?);
      ExpungeRefines(storage.State(), OUTBOX, false, f);
      var _ := storage.MailExpunge(OUTBOX, f);
    }

    /** One reference of the run. */
    method HandleRef(id: nat, envelope: Envelope, c: Conditions, ghost names: set<string>, ghost p: Progress)
      returns (stop: bool, wire: Option<Wire>, ghost a: Attempt, ghost r: Progress)
      requires Ready(storage.State(), names) && Restores(c.cause)
      requires p.view == Messages() && p.retryCount == retryCount && p.permanentFailure == permanentFailure
      requires !p.stopped
      modifies this`retryCount, this`permanentFailure, storage, storage.disk
      ensures Ready(storage.State(), names)
      ensures IsAttempt(a, c)
      ensures r == Process(p, destination, IsSelf(), id, a)
      ensures r.view == Messages() && r.retryCount == retryCount && r.permanentFailure == permanentFailure
      ensures r.stopped == stop
      ensures !IsSelf() && Sendable(p.view, id, a) ==>
        Handed(p.view.mail[Key(OUTBOX, id)].content, envelope, c.line, a.send, wire)
    {
      hide Valid, Fits, ProcessRemote, ProcessSelf, Pending, Expunged, IdForSeq, SeqOf, IdsIn, IsSelf, ViewOf,
        Delivery.DropRow, Retire, Handed, Restores, IsAttempt;
      SameTables(storage.State());
      if Key(OUTBOX, id) in storage.mails {
        SameColumns(storage.State(), id);
      }
      var f := c.faults;
      stop, wire := false, None;
      a := Untried(c);
      UntriedIsAttempt(c);
      r := Process(p, destination, IsSelf(), id, a);
      if f.select {
        return;
      }
      var _, selected := storage.MailSelect(OUTBOX, id);
      if selected.Err? {
        DropMisdirected(id, f.queueDelete, names);
        return;
      }
      var mail := selected.value;
      if mail.flags.deleted {
        DropDeleted(id, f, names);
        return;
      }
      if c.now - mail.date > UNDELIVERABLE_TIMEOUT_SECS {
        ghost var marked := RetireMessage(id, f.queueDelete, f.pending, f.mark, names);
        return;
      }
      if IsSelf() {
        a, r := SendSelf(id, mail, c, names, p);
      } else {
        var handed;
        stop, handed, a, r := SendRemote(id, envelope, c, names, p);
        wire := Some(handed);
      }
      Attempted(p, destination, IsSelf(), id, c, a);
    }

    /** The delete that names the mailbox as the destination. */
    method DropMisdirected(id: nat, fault: Write, ghost names: set<string>)
      requires Ready(storage.State(), names)
      modifies storage
      ensures Ready(storage.State(), names)
      ensures Messages() == Delivery.DropRow(old(Messages()), OUTBOX, id, fault)
    {
      hide RelPath, RowOk, References, Exclusive;
      QueueRefines(storage.State(), OUTBOX, id, Envelope("", ""), Succeeds);
      var _ := storage.QueueDeleteDestinationForID(OUTBOX, id, fault);
    }

    /** Exponential backoff: wait out what is left since the last attempt. */
    method AwaitBackoff(now: int, jitter: real, oversleep: nat) returns (start: int)
      ensures start >= now
      ensures lastAttempt.Some? && retryCount > 0 ==> start >= lastAttempt.value + CalculateBackoff(retryCount, jitter)
    {
      start := now;
      if lastAttempt.Some? && retryCount > 0 {
        var waitTime := CalculateBackoff(retryCount, jitter);
        var elapsed := now - lastAttempt.value;
        if elapsed < waitTime {
          start := now + (waitTime - elapsed) + oversleep;
        }
      }
    }

    /** One whole run: every reference waiting for the destination, newest first, then the deferred expunge. What the
        network answered and what every delivery handed over comes back with it. */
    method Run(env: Surroundings, conditions: nat -> Conditions, ghost names: set<string>)
      returns (wires: seq<Option<Wire>>, ghost refs: seq<nat>, ghost attempts: seq<Attempt>, ghost p: Progress)
      requires Ready(storage.State(), names) && forall id: nat :: Restores(conditions(id).cause)
      modifies this, storage, storage.disk
      ensures Ready(storage.State(), names)
      ensures !env.listFails ==>
        forall i :: i in refs <==> exists q :: q in old(storage.queue) && q.destination == destination && q.mail.id == i
      ensures forall i, j :: 0 <= i < j < |refs| ==> refs[i] > refs[j]
      ensures |attempts| == |refs| && |wires| == |refs|
      ensures forall i :: 0 <= i < |refs| ==> IsAttempt(attempts[i], conditions(refs[i]))
      ensures var started := if env.listFails then old(retryCount) + 1 else old(retryCount);
        var p0 := Start(old(Messages()), started, old(permanentFailure));
        p == Finish(ProcessAll(p0, destination, IsSelf(), refs, attempts), env.expunge)
      ensures env.listFails ==> refs == []
      ensures Messages() == p.view && retryCount == p.retryCount && permanentFailure == p.permanentFailure
      ensures Conservation.Accounted(old(Messages()), p, destination)
      ensures AllExplained(old(Messages()), p, destination, IsSelf(), refs, attempts)
      ensures forall i ::
        0 <= i < |refs| && !StoppedBefore(old(Messages()), destination, IsSelf(), refs, attempts, i) ==>
        WireOk(old(Messages()), destination, IsSelf(), refs[i], conditions(refs[i]), attempts[i], wires[i])
      ensures Drained(old(Messages()), Messages(), destination, IsSelf(), refs, attempts, env.expunge)
      ensures lastAttempt.Some? && lastAttempt.value >= env.now
      ensures Waits(old(retryCount), old(lastAttempt), lastAttempt.value, env.jitter)
      ensures Counted(old(Messages()), destination, IsSelf(), refs, attempts,
                      if env.listFails then old(retryCount) + 1 else old(retryCount), old(permanentFailure),
                      retryCount, permanentFailure)
    {
      hide Conservation.Accounted, Valid, Fits, ViewOf, WireOk, IsAttempt, AllExplained, StoppedBefore, IsSelf, HasRow,
        Drained, Counted;
      ghost var v0 := Messages();
      SameTables(storage.State());
      QueueRowsOk(storage.State());
      var start := AwaitBackoff(env.now, env.jitter, env.oversleep);
      lastAttempt := Some(start);
      if env.listFails {
        retryCount := retryCount + 1;
        wires, refs, attempts := [], [], [];
        p := Start(v0, retryCount, permanentFailure);
      } else {
        var ids, envelopes := storage.QueueMailIDsForDestination(destination);
        refs := ids;
        ListedRows(storage.State(), destination, ids, envelopes);
        wires, attempts, p := HandleRefs(ids, envelopes, conditions, names);
      }
      RunAccounted(v0, destination, IsSelf(), refs, attempts, p.retryCount, old(retryCount), old(permanentFailure),
                   env);
      ExpungeOutbox(env.expunge, names);
      p := Finish(p, env.expunge);
    }

    method HandleRefs(ids: seq<nat>, envelopes: seq<Envelope>, conditions: nat -> Conditions, ghost names: set<string>)
      returns (wires: seq<Option<Wire>>, ghost attempts: seq<Attempt>, ghost p: Progress)
      requires Ready(storage.State(), names) && forall id: nat :: Restores(conditions(id).cause)
      requires Conservation.QueueOk(Messages()) && AllDifferent(ids) && |envelopes| == |ids|
      requires forall i :: 0 <= i < |ids| ==> Listed(Messages(), destination, ids[i], envelopes[i])
      modifies this`retryCount, this`permanentFailure, storage, storage.disk
      ensures Ready(storage.State(), names)
      ensures |attempts| == |ids| && |wires| == |ids|
      ensures forall i :: 0 <= i < |ids| ==> IsAttempt(attempts[i], conditions(ids[i]))
      ensures var p0 := Start(old(Messages()), old(retryCount), old(permanentFailure));
        p == ProcessAll(p0, destination, IsSelf(), ids, attempts)
      ensures Messages() == p.view && retryCount == p.retryCount && permanentFailure == p.permanentFailure
      ensures forall i :: 0 <= i < |ids| && !StoppedBefore(old(Messages()), destination, IsSelf(), ids, attempts, i) ==>
        WireOk(old(Messages()), destination, IsSelf(), ids[i], conditions(ids[i]), attempts[i], wires[i])
    {
      hide Process, Valid, Fits, ViewOf, Conservation.QueueOk, WireOk, IsAttempt, Listed, StoppedBefore, IsSelf,
        Sendable,
        HasRow, Handed, Restores, Through;
      ghost var v0, p0 := Messages(), Start(Messages(), retryCount, permanentFailure);
      ListedHaveRows(v0, destination, ids, envelopes);
      p, wires, attempts := p0, [], [];
      ThroughNone(v0, destination, IsSelf(), ids, conditions, p0);
      for i := 0 to |ids|
        invariant Ready(storage.State(), names)
        invariant Through(v0, destination, IsSelf(), ids, conditions, p0, i, attempts, wires, p) && !p.stopped
        invariant Messages() == p.view && retryCount == p.retryCount && permanentFailure == p.permanentFailure
      {
        var stop, wire;
        ghost var a, b;
        stop, wire, a, b := HandleRef(ids[i], envelopes[i], conditions(ids[i]), names, p);
        ThroughOne(v0, destination, IsSelf(), ids, conditions, p0, i, attempts, wires, p, envelopes[i], a, wire);
        attempts, wires, p := attempts + [a], wires + [wire], b;
        if stop {
          attempts := ThroughStop(v0, destination, IsSelf(), ids, conditions, p0, i + 1, attempts, wires, p);
          wires := wires + seq(|ids| - i - 1, _ => None);
          return;
        }
      }
      ThroughAll(v0, destination, IsSelf(), ids, conditions, p0, attempts, wires, p);
    }
  }

  function Recording(v: View, destination: string, id: nat, f: Faults): Settled {
    if f.queueDelete.Fails? then Settled(v, Kept, false)
    else Settle(Delivery.DropRow(v, destination, id, f.queueDelete), id, f)
  }

  lemma RemoteFailed(p: Progress, destination: string, id: nat, f: Faults, a: Attempt)
    requires a.send.Failed? && a.faults == f.(move := a.faults.move)
    ensures ProcessRemote(p, destination, id, a) == ProcessError(p, destination, id, a.send.kind, f)
  {
  }

  lemma RemoteUnrecorded(p: Progress, destination: string, id: nat, f: Faults, a: Attempt, settled: Settled)
    requires a.send.Delivered? && a.faults == f.(move := a.faults.move)
    requires settled == Recording(p.view, destination, id, a.faults) && !settled.ok
    ensures ProcessRemote(p, destination, id, a) == ProcessError(p.(view := settled.view), destination, id, f.kind, f)
  {
  }

  lemma RemoteRecorded(p: Progress, destination: string, id: nat, f: Faults, a: Attempt, settled: Settled)
    requires a.send.Delivered? && a.faults == f.(move := a.faults.move)
    requires settled == Recording(p.view, destination, id, a.faults) && settled.ok
    ensures ProcessRemote(p, destination, id, a)
         == p.(view := settled.view, fates := p.fates[id := settled.fate], retryCount := 0, permanentFailure := false)
  {
  }

  lemma SameColumns(s: Store, id: nat)
    requires Valid(s) && Key(OUTBOX, id) in s.mails
    ensures var k := Key(OUTBOX, id);
      k in ViewOf(s).mail && ViewOf(s).mail[k].flags == s.mails[k].flags && ViewOf(s).mail[k].date == s.mails[k].date
  {
  }

  function CopiedTo(v: View, id: nat, now: int): View
    requires Key(OUTBOX, id) in v.mail
  {
    Put(v, INBOX, Message(v.mail[Key(OUTBOX, id)].content, now, NO_FLAGS))
  }

  lemma SameTables(s: Store)
    requires Valid(s)
    ensures ViewOf(s).mail.Keys == s.mails.Keys && ViewOf(s).mailboxes == s.mailboxes
  {
  }

  /** The attempt of a self-send, by how its insert and its move fared. */
  ghost function SelfAttempt(c: Conditions, created: Write, move: Write): Attempt {
    Attempt(c.now, Failed(c.line.kind), c.faults.(create := created, move := move))
  }

  ghost function SelfCopied(p: Progress, id: nat, c: Conditions, created: Write): Progress
    requires Key(OUTBOX, id) in p.view.mail
  {
    if created.Skipped? then p
    else p.(view := CopiedTo(p.view, id, c.now), copies := p.copies[id := Fresh(p.view, INBOX).id])
  }

  lemma SelfCopiedView(p: Progress, id: nat, c: Conditions, created: Write)
    requires Key(OUTBOX, id) in p.view.mail
    ensures SelfCopied(p, id, c, created).view == if created.Skipped? then p.view else CopiedTo(p.view, id, c.now)
    ensures SelfCopied(p, id, c, created).permanentFailure == p.permanentFailure
    ensures SelfCopied(p, id, c, created).stopped == p.stopped
  {
  }

  lemma SelfIsAttempt(c: Conditions, created: Write, move: Write)
    requires created == c.faults.create || (c.line.openFails && created.Fails?)
    requires c.cause == NO_MOVE_FAULTS ==> move.Succeeds?
    ensures IsAttempt(SelfAttempt(c, created, move), c)
  {
  }

  lemma SelfRefused(p: Progress, destination: string, id: nat, c: Conditions, created: Write, move: Write)
    requires Key(OUTBOX, id) in p.view.mail
    requires created.Fails? || (created.Succeeds? && INBOX !in p.view.mailboxes)
    ensures ProcessSelf(p, destination, id, SelfAttempt(c, created, move)) == p.(retryCount := p.retryCount + 1)
  {
  }

  lemma SelfDelivered(p: Progress, destination: string, id: nat, c: Conditions, created: Write, move: Write,
                      copied: Progress, settled: Settled)
    requires Key(OUTBOX, id) in p.view.mail
    requires created.Skipped? || (created.Succeeds? && INBOX in p.view.mailboxes)
    requires copied == SelfCopied(p, id, c, created)
    requires settled == Settle(Delivery.DropRow(copied.view, destination, id, c.faults.queueDelete), id,
                               c.faults.(move := move))
    ensures ProcessSelf(p, destination, id, SelfAttempt(c, created, move))
         == copied.(view := settled.view, fates := p.fates[id := settled.fate], retryCount := 0)
  {
  }

  /** A move from Outbox to Sent that fails where it can be undone: accepted exactly as CanSend says, in either tier. */
  lemma MoveOutcome(s: Store, names: set<string>, id: nat, cause: MoveFaults)
    requires Ready(s, names) && Key(OUTBOX, id) in s.mails && Restores(cause)
    ensures var r := Move(s, Key(OUTBOX, id), SENT, true, cause);
      && Valid(r.store) && Fits(r.store, names)
      && (cause.begin ==> r.result.Ok?)
      && (!cause.begin && r.result.Ok? ==> CanSend(ViewOf(s), id) && r.result.value == Fresh(ViewOf(s), SENT).id)
      && (cause == NO_MOVE_FAULTS && CanSend(ViewOf(s), id) ==> r.result.Ok?)
      && ViewOf(r.store) == (if r.result.Ok? && !cause.begin then Transfer(ViewOf(s), Key(OUTBOX, id), SENT)
                             else ViewOf(s))
  {
    hide RelPath, Move;
    var k := Key(OUTBOX, id);
    MoveRefines(s, names, k, SENT, true, cause);
    MoveMailboxes(s, k, SENT, true, cause);
    MovableIsSendable(s, id);
  }

  lemma MovableIsSendable(s: Store, id: nat)
    requires Valid(s) && Key(OUTBOX, id) in s.mails
    ensures Movable(s, Key(OUTBOX, id), SENT, true) <==> CanSend(ViewOf(s), id)
  {
    hide RelPath;
    assert RowOk(s, Key(OUTBOX, id));
  }

  /** Row and envelope as the run lists them. */
  ghost predicate Listed(v: View, destination: string, id: nat, envelope: Envelope) {
    HasRow(v, destination, id) && v.queue[QueueKey(destination, Key(OUTBOX, id))] == envelope
  }

  ghost function Untried(c: Conditions): Attempt {
    var move := if c.cause == NO_MOVE_FAULTS then Succeeds else c.faults.move;
    Attempt(c.now, Failed(c.line.kind), c.faults.(move := move))
  }

  /** An attempt that gets as far as sending is one of the two kinds. */
  lemma Attempted(p: Progress, destination: string, self: bool, id: nat, c: Conditions, a: Attempt)
    requires IsAttempt(a, c) && !p.stopped && !c.faults.select && Live(p.view, id)
    requires c.now - p.view.mail[Key(OUTBOX, id)].date <= UNDELIVERABLE_TIMEOUT_SECS
    ensures Process(p, destination, self, id, a)
         == if self then ProcessSelf(p, destination, id, a) else ProcessRemote(p, destination, id, a)
  {
    hide ProcessRemote, ProcessSelf;
  }

  lemma UntriedIsAttempt(c: Conditions)
    ensures IsAttempt(Untried(c), c)
  {
  }

  lemma QueueRowsOk(s: Store)
    requires Valid(s)
    ensures Conservation.QueueOk(ViewOf(s)) && ViewOf(s).queue == s.queue
  {
  }

  lemma ListedRows(s: Store, destination: string, ids: seq<nat>, envelopes: seq<Envelope>)
    requires Valid(s) && |envelopes| == |ids|
    requires forall i :: i in ids <==> exists q :: q in s.queue && q.destination == destination && q.mail.id == i
    requires forall i, j :: 0 <= i < j < |ids| ==> ids[i] > ids[j]
    requires forall i :: 0 <= i < |ids| && QueueKey(destination, Key(OUTBOX, ids[i])) in s.queue ==>
      envelopes[i] == s.queue[QueueKey(destination, Key(OUTBOX, ids[i]))]
    ensures AllDifferent(ids)
    ensures forall i :: 0 <= i < |ids| ==> Listed(ViewOf(s), destination, ids[i], envelopes[i])
  {
    forall i | 0 <= i < |ids| ensures Listed(ViewOf(s), destination, ids[i], envelopes[i]) {
      assert ids[i] in ids;
      var q :| q in s.queue && q.destination == destination && q.mail.id == ids[i];
      assert q == QueueKey(destination, Key(OUTBOX, ids[i]));
    }
  }

  /** What an attempt hands over is the message as it was when the run began. */
  lemma WireStep(v0: View, destination: string, self: bool, ids: seq<nat>, i: nat, attempts: seq<Attempt>, p0: Progress,
                 envelope: Envelope, c: Conditions, a: Attempt, wire: Option<Wire>)
    requires Conservation.QueueOk(v0) && AllDifferent(ids) && i < |ids| && |attempts| == i
    requires p0 == Start(v0, p0.retryCount, p0.permanentFailure) && Listed(v0, destination, ids[i], envelope)
    requires forall j :: 0 <= j < i ==> HasRow(v0, destination, ids[j])
    requires var v := ProcessAll(p0, destination, self, ids[..i], attempts).view;
      !self && Sendable(v, ids[i], a) ==> Handed(v.mail[Key(OUTBOX, ids[i])].content, envelope, c.line, a.send, wire)
    ensures WireOk(v0, destination, self, ids[i], c, a, wire)
  {
    hide Process, AllExplained, Untouched;
    var p := ProcessAll(p0, destination, self, ids[..i], attempts);
    RunExplained(v0, destination, self, ids[..i], attempts, p0.retryCount, p0.permanentFailure);
    RunAccounts(v0, destination, self, ids[..i], attempts, p0.retryCount, p0.permanentFailure);
    assert ids[i] !in ids[..i];
    assert Untouched(v0, p.view, ids[i]) by {
      OthersUntouched(v0, p, destination, self, ids[..i], attempts, ids[i]);
    }
    if Live(v0, ids[i]) {
      SameRows(v0, p.view, destination, ids[i]);
    }
  }

  lemma OthersUntouched(v0: View, p: Progress, destination: string, self: bool, refs: seq<nat>, attempts: seq<Attempt>,
                        id: nat)
    requires |refs| == |attempts| && AllExplained(v0, p, destination, self, refs, attempts) && id !in refs
    ensures Untouched(v0, p.view, id)
  {
  }

  lemma ListedHaveRows(v: View, destination: string, ids: seq<nat>, envelopes: seq<Envelope>)
    requires |envelopes| == |ids| && forall i :: 0 <= i < |ids| ==> Listed(v, destination, ids[i], envelopes[i])
    ensures forall i :: 0 <= i < |ids| ==> HasRow(v, destination, ids[i])
  {
  }

  /** A run that has come to its n-th reference. */
  ghost predicate Through(v0: View, destination: string, self: bool, ids: seq<nat>, conditions: nat -> Conditions,
                          p0: Progress, n: nat, attempts: seq<Attempt>, wires: seq<Option<Wire>>, p: Progress) {
    && n <= |ids| && |attempts| == n && |wires| == n
    && p == ProcessAll(p0, destination, self, ids[..n], attempts)
    && (forall j :: 0 <= j < n ==> IsAttempt(attempts[j], conditions(ids[j])))
    && (forall j :: 0 <= j < n ==> WireOk(v0, destination, self, ids[j], conditions(ids[j]), attempts[j], wires[j]))
  }

  lemma ThroughNone(v0: View, destination: string, self: bool, ids: seq<nat>, conditions: nat -> Conditions,
                    p0: Progress)
    ensures Through(v0, destination, self, ids, conditions, p0, 0, [], [], p0)
  {
  }

  lemma ThroughOne(v0: View, destination: string, self: bool, ids: seq<nat>, conditions: nat -> Conditions,
                   p0: Progress, n: nat, attempts: seq<Attempt>, wires: seq<Option<Wire>>, p: Progress,
                   envelope: Envelope, a: Attempt, wire: Option<Wire>)
    requires Through(v0, destination, self, ids, conditions, p0, n, attempts, wires, p) && n < |ids|
    requires Conservation.QueueOk(v0) && AllDifferent(ids) && p0 == Start(v0, p0.retryCount, p0.permanentFailure)
    requires Listed(v0, destination, ids[n], envelope) && forall j :: 0 <= j < |ids| ==> HasRow(v0, destination, ids[j])
    requires IsAttempt(a, conditions(ids[n]))
    requires !self && Sendable(p.view, ids[n], a) ==>
      Handed(p.view.mail[Key(OUTBOX, ids[n])].content, envelope, conditions(ids[n]).line, a.send, wire)
    ensures Through(v0, destination, self, ids, conditions, p0, n + 1, attempts + [a], wires + [wire],
                    Process(p, destination, self, ids[n], a))
  {
    hide Process, IsAttempt, WireOk, Listed, HasRow, Sendable, Handed, Conservation.QueueOk;
    WireStep(v0, destination, self, ids, n, attempts, p0, envelope, conditions(ids[n]), a, wire);
    assert ids[..n + 1][..n] == ids[..n] && (attempts + [a])[..n] == attempts;
  }

  lemma ThroughAll(v0: View, destination: string, self: bool, ids: seq<nat>, conditions: nat -> Conditions,
                   p0: Progress, attempts: seq<Attempt>, wires: seq<Option<Wire>>, p: Progress)
    requires Through(v0, destination, self, ids, conditions, p0, |ids|, attempts, wires, p)
    ensures |attempts| == |ids| && |wires| == |ids| && p == ProcessAll(p0, destination, self, ids, attempts)
    ensures forall j :: 0 <= j < |ids| ==> IsAttempt(attempts[j], conditions(ids[j]))
    ensures forall j :: 0 <= j < |ids| ==>
      WireOk(v0, destination, self, ids[j], conditions(ids[j]), attempts[j], wires[j])
  {
    assert ids[..|ids|] == ids;
  }

  /** The references behind a stop are not attempted. */
  lemma ThroughStop(v0: View, destination: string, self: bool, ids: seq<nat>, conditions: nat -> Conditions,
                    p0: Progress, n: nat, attempts: seq<Attempt>, wires: seq<Option<Wire>>, p: Progress)
    returns (all: seq<Attempt>)
    requires Through(v0, destination, self, ids, conditions, p0, n, attempts, wires, p) && p.stopped
    requires Conservation.QueueOk(v0) && AllDifferent(ids) && p0 == Start(v0, p0.retryCount, p0.permanentFailure)
    requires forall j :: 0 <= j < |ids| ==> HasRow(v0, destination, ids[j])
    ensures |all| == |ids| && |wires| == n && p == ProcessAll(p0, destination, self, ids, all)
    ensures forall j :: 0 <= j < |ids| ==> IsAttempt(all[j], conditions(ids[j]))
    ensures forall j :: 0 <= j < n ==> WireOk(v0, destination, self, ids[j], conditions(ids[j]), all[j], wires[j])
    ensures forall j :: n <= j < |ids| ==> StoppedBefore(v0, destination, self, ids, all, j)
  {
    hide Process, IsAttempt, StoppedBefore, HasRow, Conservation.QueueOk, WireOk;
    var rest := seq(|ids| - n, j requires 0 <= j < |ids| - n => Untried(conditions(ids[n + j])));
    all := attempts + rest;
    assert all[..n] == attempts;
    StoppedRest(p0, destination, self, ids, all, n);
    StoppedAfter(v0, destination, self, ids, attempts, rest, n, p0);
    forall j | n <= j < |ids| ensures IsAttempt(all[j], conditions(ids[j])) {
      UntriedIsAttempt(conditions(ids[j]));
    }
  }

  /** A run that has stopped stays stopped for the references behind. */
  lemma StoppedAfter(v0: View, destination: string, self: bool, ids: seq<nat>, attempts: seq<Attempt>,
                     rest: seq<Attempt>, n: nat, p0: Progress)
    requires Conservation.QueueOk(v0) && AllDifferent(ids) && n <= |ids| && |attempts| == n && |rest| == |ids| - n
    requires p0 == Start(v0, p0.retryCount, p0.permanentFailure)
    requires forall j :: 0 <= j < n ==> HasRow(v0, destination, ids[j])
    requires ProcessAll(p0, destination, self, ids[..n], attempts).stopped
    ensures forall j :: n <= j <= |ids| ==> StoppedBefore(v0, destination, self, ids, attempts + rest, j)
  {
    hide Process, Explained, Untouched, GivesUp;
    RunExplained(v0, destination, self, ids[..n], attempts, p0.retryCount, p0.permanentFailure);
    var j :| 0 <= j < n && GivesUp(v0, destination, self, ids[..n][j], attempts[j]);
    assert GivesUp(v0, destination, self, ids[j], (attempts + rest)[j]);
  }

  lemma RunAccounted(v0: View, destination: string, self: bool, refs: seq<nat>, attempts: seq<Attempt>, now: nat,
                     retryCount: nat, permanentFailure: bool, env: Surroundings)
    requires Conservation.QueueOk(v0) && |refs| == |attempts| && AllDifferent(refs)
    requires forall i :: 0 <= i < |refs| ==> HasRow(v0, destination, refs[i])
    ensures var started := if env.listFails then retryCount + 1 else retryCount;
      var p := Finish(ProcessAll(Start(v0, started, permanentFailure), destination, self, refs, attempts), env.expunge);
      && Conservation.Accounted(v0, p, destination)
      && AllExplained(v0, p, destination, self, refs, attempts)
      && Drained(v0, p.view, destination, self, refs, attempts, env.expunge)
      && Counted(v0, destination, self, refs, attempts, started, permanentFailure, p.retryCount, p.permanentFailure)
  {
    hide Conservation.Accounted, AllExplained, Process, Drained, Counted;
    var started := if env.listFails then retryCount + 1 else retryCount;
    Conservation.RunConserves(v0, destination, self, refs, attempts, started, permanentFailure, env.expunge);
    RunExplained(v0, destination, self, refs, attempts, started, permanentFailure);
    FinishExplained(v0, ProcessAll(Start(v0, started, permanentFailure), destination, self, refs, attempts),
                    destination, self, refs, attempts, env.expunge);
    RunDrained(v0, destination, self, refs, attempts, started, permanentFailure, env.expunge);
    RunCounts(v0, destination, self, refs, attempts, started, permanentFailure);
  }

  lemma {:induction false} StoppedRest(p0: Progress, destination: string, self: bool, refs: seq<nat>,
                                       attempts: seq<Attempt>, i: nat)
    requires |refs| == |attempts| && i <= |refs|
    requires ProcessAll(p0, destination, self, refs[..i], attempts[..i]).stopped
    ensures ProcessAll(p0, destination, self, refs, attempts)
         == ProcessAll(p0, destination, self, refs[..i], attempts[..i])
  {
    if i == |refs| {
      assert refs[..i] == refs && attempts[..i] == attempts;
    } else {
      var n := |refs| - 1;
      assert refs[..n][..i] == refs[..i] && attempts[..n][..i] == attempts[..i];
      StoppedRest(p0, destination, self, refs[..n], attempts[..n], i);
      StoppedStays(ProcessAll(p0, destination, self, refs[..n], attempts[..n]), destination, self, refs[n],
                   attempts[n]);
    }
  }

  lemma StoppedStays(p: Progress, destination: string, self: bool, id: nat, a: Attempt)
    requires p.stopped
    ensures Process(p, destination, self, id, a) == p
  {
  }

  /** A row queued for an address of this node's own key is delivered to itself, and no other row is. */
  lemma SelfIsOwnKey(q: Queue, unwrap: Enqueue.Unwrap, rcpt: string)
    requires |q.publicKey| == 32 && Enqueue.IsHostOf(unwrap, rcpt, q.destination)
    ensures q.IsSelf() <==> Address.ParseAddress(unwrap(rcpt).value) == Ok(q.publicKey)
  {
    hide Address.ParseAddress, Address.Encode, Address.Decode, Address.ToLower;
    Address.DecodeSpells(q.destination, q.publicKey);
    Address.DecodeSpells(q.destination, Address.ParseAddress(unwrap(rcpt).value).value);
  }

  /** The front of the sender. */
  class Queues {
    const storage: SQLite3Storage
    const fs: FileStore?

    constructor (storage: SQLite3Storage, fs: FileStore?)
      ensures this.storage == storage && this.fs == fs
    {
      this.storage, this.fs := storage, fs;
    }

    /** Large messages are streamed to a file, small ones stored in their row; then one queue row per recipient. */
    method QueueFor(from: string, rcpts: seq<string>, content: Bytes, unwrap: Enqueue.Unwrap, now: int, create: Write,
                    inserts: Enqueue.Inserts, ghost names: set<string>)
      returns (r: Result<()>)
      requires Ready(storage.State(), names) && (fs == null || fs == storage.disk)
      modifies storage, storage.disk
      ensures Ready(storage.State(), names)
      ensures var v := old(ViewOf(storage.State()));
        var q := Enqueue.QueueFor(v, from, rcpts, content, now, unwrap, create, inserts);
        ViewOf(storage.State()) == q.view && r.Ok? == q.ok
    {
      hide RelPath, References, Exclusive, Distinct, RowOk, Enqueue.InsertRows;
      ghost var s := storage.State();
      var created;
      if |content| > SMALL_MESSAGE_THRESHOLD && fs != null {
        var f := NO_STREAM_FAULTS.(insert := create);
        var reader := new Reader.OfBytes(content);
        CreateFromStreamRefines(s, names, OUTBOX, content, now, f);
        StreamAccepted(s, OUTBOX, content, now, create);
        created := storage.MailCreateFromStream(OUTBOX, reader, fs, now, f);
      } else {
        CreateRefines(s, OUTBOX, content, now, create);
        created := storage.MailCreate(OUTBOX, content, now, create);
      }
      if created.Err? {
        return Err(created.error);
      }
      r := InsertRecipients(created.value, from, rcpts, unwrap, inserts, names);
    }

    /** The same for a message that arrives as a stream: what was read ahead to size it is put back in front. */
    method QueueForStream(from: string, rcpts: seq<string>, reader: Reader, unwrap: Enqueue.Unwrap, now: int,
                          create: Write, inserts: Enqueue.Inserts, ghost names: set<string>)
      returns (r: Result<()>)
      requires Ready(storage.State(), names) && (fs == null || fs == storage.disk)
      modifies storage, storage.disk, reader
      ensures Ready(storage.State(), names)
      ensures var v := old(ViewOf(storage.State()));
        var q := if reader.fails then Enqueue.Queued(v, false)
                 else Enqueue.QueueFor(v, from, rcpts, old(reader.Rest()), now, unwrap, create, inserts);
        ViewOf(storage.State()) == q.view && r.Ok? == q.ok
    {
      hide RelPath, References, Exclusive, Distinct, RowOk, Enqueue.InsertRows;
      ghost var s, content := storage.State(), reader.Rest();
      var peekedData, err := ReadFull(reader, SMALL_MESSAGE_THRESHOLD + 1);
      if err == ReadFailed {
        return Err(ReadError);
      }
      var created;
      if |peekedData| > SMALL_MESSAGE_THRESHOLD && fs != null {
        reader.PutBack(peekedData);
        var f := NO_STREAM_FAULTS.(insert := create);
        CreateFromStreamRefines(s, names, OUTBOX, content, now, f.(read := reader.fails));
        StreamAccepted(s, OUTBOX, content, now, create);
        created := storage.MailCreateFromStream(OUTBOX, reader, fs, now, f);
      } else {
        var remaining, ok := ReadAll(reader, CHUNK_SIZE);
        if !ok {
          return Err(ReadError);
        }
        assert peekedData + remaining == content;
        CreateRefines(s, OUTBOX, content, now, create);
        created := storage.MailCreate(OUTBOX, peekedData + remaining, now, create);
      }
      if created.Err? {
        return Err(created.error);
      }
      r := InsertRecipients(created.value, from, rcpts, unwrap, inserts, names);
    }

    /** One queue row per recipient, up to the first that fails. */
    method InsertRecipients(pid: nat, from: string, rcpts: seq<string>, unwrap: Enqueue.Unwrap,
                            inserts: Enqueue.Inserts, ghost names: set<string>)
      returns (r: Result<()>)
      requires Ready(storage.State(), names)
      modifies storage
      ensures Ready(storage.State(), names)
      ensures Enqueue.InsertRows(old(ViewOf(storage.State())), pid, from, rcpts, unwrap, inserts)
           == Enqueue.Queued(ViewOf(storage.State()), r.Ok?)
    {
      hide Valid, Fits, ViewOf, Enqueue.InsertOne, Enqueue.HostOf;
      ghost var v := ViewOf(storage.State());
      for i := 0 to |rcpts|
        invariant Ready(storage.State(), names)
        invariant Enqueue.InsertRows(v, pid, from, rcpts[..i], unwrap, inserts)
             == Enqueue.Queued(ViewOf(storage.State()), true)
      {
        assert rcpts[..i + 1][..i] == rcpts[..i];
        r := InsertRecipient(pid, from, rcpts[i], unwrap, inserts(i), names);
        if r.Err? {
          FailedRest(v, pid, from, rcpts, unwrap, inserts, i + 1);
          return;
        }
      }
      assert rcpts[..|rcpts|] == rcpts;
      return Ok(());
    }

    method InsertRecipient(pid: nat, from: string, rcpt: string, unwrap: Enqueue.Unwrap, fault: Write,
                           ghost names: set<string>)
      returns (r: Result<()>)
      requires Ready(storage.State(), names)
      modifies storage
      ensures Ready(storage.State(), names)
      ensures Enqueue.InsertOne(old(ViewOf(storage.State())), pid, from, rcpt, Enqueue.HostOf(unwrap, rcpt), fault)
           == Enqueue.Queued(ViewOf(storage.State()), r.Ok?)
    {
      hide RelPath, RowOk, References, Exclusive, Distinct, Enqueue.HostOf;
      var host := Enqueue.HostOf(unwrap, rcpt);
      if host.None? {
        return Err(BadAddress);
      }
      SameTables(storage.State());
      QueueRefines(storage.State(), host.value, pid, Envelope(from, rcpt), fault);
      r := storage.QueueInsertDestinationForID(host.value, pid, from, rcpt, fault);
    }
  }

  lemma {:induction false} FailedRest(v: View, id: nat, from: string, rcpts: seq<string>, unwrap: Enqueue.Unwrap,
                                      inserts: Enqueue.Inserts, i: nat)
    requires i <= |rcpts| && !Enqueue.InsertRows(v, id, from, rcpts[..i], unwrap, inserts).ok
    ensures Enqueue.InsertRows(v, id, from, rcpts, unwrap, inserts)
         == Enqueue.InsertRows(v, id, from, rcpts[..i], unwrap, inserts)
  {
    hide Enqueue.HostOf, Enqueue.InsertOne;
    if i == |rcpts| {
      assert rcpts[..i] == rcpts;
    } else {
      var n := |rcpts| - 1;
      assert rcpts[..n][..i] == rcpts[..i];
      FailedRest(v, id, from, rcpts[..n], unwrap, inserts, i);
    }
  }
}
