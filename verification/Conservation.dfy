// Where every message is after a run: still in Outbox, in Sent, or given up for
// a stated reason, and never in two of these places.

module Conservation {
  import opened Types
  import opened StoreModel
  import opened Delivery

  function FateOf(p: Progress, id: nat): Fate {
    if id in p.fates then p.fates[id] else Kept
  }

  /** Foreign key of `queue`. */
  ghost predicate QueueOk(v: View) {
    forall q :: q in v.queue ==> q.mail in v.mail && q.mail.mailbox == OUTBOX
  }

  /** One message that was in Outbox, against where it is now. */
  ghost predicate Traced(v0: View, p: Progress, id: nat)
    requires Key(OUTBOX, id) in v0.mail
  {
    var k, was, now := Key(OUTBOX, id), v0.mail[Key(OUTBOX, id)], p.view.mail;
    match FateOf(p, id)
    case Kept => if k in now then now[k] == was else was.flags.deleted
    case OwnerDeleted => was.flags.deleted && (k in now ==> now[k] == was)
    case GivenUp(reason) =>
      && !was.flags.deleted
      && (k in now ==> now[k] == was.(flags := was.flags.(deleted := true)))
      && (reason.Expired? ==> reason.now - was.date > 604800)
    case SentAs(j) => k !in now && Key(SENT, j) in now && Key(SENT, j) !in v0.mail && now[Key(SENT, j)] == was
  }

  ghost predicate OutboxTraced(v0: View, p: Progress) {
    && (forall id :: Key(OUTBOX, id) in v0.mail ==> Traced(v0, p, id))
    && (forall id :: Key(OUTBOX, id) in p.view.mail ==> Key(OUTBOX, id) in v0.mail)
    && (forall id :: id in p.fates ==> Key(OUTBOX, id) in v0.mail)
  }

  /** Sent has gained exactly one copy per message sent. */
  ghost predicate SentTraced(v0: View, p: Progress) {
    && (forall j :: Key(SENT, j) in v0.mail ==>
          Key(SENT, j) in p.view.mail && p.view.mail[Key(SENT, j)] == v0.mail[Key(SENT, j)])
    && (forall j :: Key(SENT, j) in p.view.mail && Key(SENT, j) !in v0.mail ==>
          exists id :: id in p.fates && p.fates[id] == SentAs(j))
    && (forall i, j :: i in p.fates && j in p.fates && p.fates[i] == p.fates[j] && p.fates[i].SentAs? ==> i == j)
  }

  /** INBOX has gained exactly one message per self-send, with the message's content. */
  ghost predicate InboxTraced(v0: View, p: Progress) {
    && (forall j :: Key(INBOX, j) in v0.mail ==>
          Key(INBOX, j) in p.view.mail && p.view.mail[Key(INBOX, j)] == v0.mail[Key(INBOX, j)])
    && (forall j :: Key(INBOX, j) in p.view.mail && Key(INBOX, j) !in v0.mail ==>
          exists id :: id in p.copies && p.copies[id] == j)
    && (forall id :: id in p.copies ==>
          && Key(OUTBOX, id) in v0.mail
          && Key(INBOX, p.copies[id]) in p.view.mail && Key(INBOX, p.copies[id]) !in v0.mail
          && p.view.mail[Key(INBOX, p.copies[id])].content == v0.mail[Key(OUTBOX, id)].content
          && p.view.mail[Key(INBOX, p.copies[id])].flags == NO_FLAGS)
    && (forall i, j :: i in p.copies && j in p.copies && p.copies[i] == p.copies[j] ==> i == j)
  }

  ghost predicate OthersTraced(v0: View, p: Progress) {
    && p.view.mailboxes == v0.mailboxes
    && forall k: Key :: k.mailbox != OUTBOX && k.mailbox != SENT && k.mailbox != INBOX ==>
         (k in p.view.mail <==> k in v0.mail) && (k in v0.mail ==> p.view.mail[k] == v0.mail[k])
  }

  /** Rows are only removed, and only this destination's or those of a message that left Outbox. */
  ghost predicate QueueTraced(v0: View, p: Progress, destination: string) {
    && QueueOk(v0) && QueueOk(p.view)
    && (forall q :: q in p.view.queue ==> q in v0.queue && p.view.queue[q] == v0.queue[q])
    && (forall q :: q in v0.queue && q !in p.view.queue ==> q.destination == destination || q.mail !in p.view.mail)
  }

  ghost predicate Accounted(v0: View, p: Progress, destination: string) {
    && OutboxTraced(v0, p) && SentTraced(v0, p) && InboxTraced(v0, p) && OthersTraced(v0, p)
    && QueueTraced(v0, p, destination)
  }

  // ----- Each statement keeps the account -----

  lemma DropRowAccounted(v0: View, p: Progress, destination: string, id: nat, fault: Write)
    requires Accounted(v0, p, destination)
    ensures Accounted(v0, p.(view := DropRow(p.view, destination, id, fault)), destination)
  {
    var r := p.(view := DropRow(p.view, destination, id, fault));
    SameMessages(v0, p, r);
    RowsOnlyGo(v0, p, r, destination, id, fault);
  }

  /** The account of the mailboxes is about the messages only. */
  lemma SameMessages(v0: View, p: Progress, r: Progress)
    requires OutboxTraced(v0, p) && SentTraced(v0, p) && InboxTraced(v0, p) && OthersTraced(v0, p)
    requires r.view.mail == p.view.mail && r.view.mailboxes == p.view.mailboxes && r.fates == p.fates
    requires r.copies == p.copies
    ensures OutboxTraced(v0, r) && SentTraced(v0, r) && InboxTraced(v0, r) && OthersTraced(v0, r)
  {
    forall i | Key(OUTBOX, i) in v0.mail ensures Traced(v0, r, i) {
      assert Traced(v0, p, i);
    }
  }

  lemma RowsOnlyGo(v0: View, p: Progress, r: Progress, destination: string, id: nat, fault: Write)
    requires QueueTraced(v0, p, destination) && r.view == DropRow(p.view, destination, id, fault)
    ensures QueueTraced(v0, r, destination)
  {
  }

  lemma ExpungeAccounted(v0: View, p: Progress, destination: string)
    requires Accounted(v0, p, destination)
    ensures Accounted(v0, p.(view := Expunged(p.view, OUTBOX)), destination)
  {
    var r := p.(view := Expunged(p.view, OUTBOX));
    forall id | Key(OUTBOX, id) in v0.mail ensures Traced(v0, r, id) {
      assert Traced(v0, p, id);
    }
  }

  lemma KeptAccounted(v0: View, p: Progress, destination: string, id: nat)
    requires Accounted(v0, p, destination) && id !in p.fates && Key(OUTBOX, id) in v0.mail
    ensures Accounted(v0, p.(fates := p.fates[id := Kept]), destination)
    ensures v0.mail[Key(OUTBOX, id)].flags.deleted ==>
      Accounted(v0, p.(fates := p.fates[id := OwnerDeleted]), destination)
  {
    FateAccounted(v0, p, destination, id, Kept);
    if v0.mail[Key(OUTBOX, id)].flags.deleted {
      FateAccounted(v0, p, destination, id, OwnerDeleted);
    }
  }

  lemma FateAccounted(v0: View, p: Progress, destination: string, id: nat, fate: Fate)
    requires Accounted(v0, p, destination) && id !in p.fates && Key(OUTBOX, id) in v0.mail
    requires fate.Kept? || (fate.OwnerDeleted? && v0.mail[Key(OUTBOX, id)].flags.deleted)
    ensures Accounted(v0, p.(fates := p.fates[id := fate]), destination)
  {
    var r := p.(fates := p.fates[id := fate]);
    FateOutbox(v0, p, id, fate);
    OtherFateKeepsSent(v0, p, r, id);
  }

  lemma FateOutbox(v0: View, p: Progress, id: nat, fate: Fate)
    requires OutboxTraced(v0, p) && id !in p.fates && Key(OUTBOX, id) in v0.mail
    requires fate.Kept? || (fate.OwnerDeleted? && v0.mail[Key(OUTBOX, id)].flags.deleted)
    ensures OutboxTraced(v0, p.(fates := p.fates[id := fate]))
  {
    var r := p.(fates := p.fates[id := fate]);
    forall i | Key(OUTBOX, i) in v0.mail ensures Traced(v0, r, i) {
      assert Traced(v0, p, i);
    }
  }

  /** A fate other than being sent leaves the account of Sent alone. */
  lemma OtherFateKeepsSent(v0: View, p: Progress, r: Progress, id: nat)
    requires SentTraced(v0, p) && id !in p.fates
    requires forall j :: Key(SENT, j) in r.view.mail <==> Key(SENT, j) in p.view.mail
    requires forall j :: Key(SENT, j) in p.view.mail ==> r.view.mail[Key(SENT, j)] == p.view.mail[Key(SENT, j)]
    requires id in r.fates && r.fates == p.fates[id := r.fates[id]] && !r.fates[id].SentAs?
    ensures SentTraced(v0, r)
  {
    forall j | Key(SENT, j) in r.view.mail && Key(SENT, j) !in v0.mail
      ensures exists i :: i in r.fates && r.fates[i] == SentAs(j)
    {
      var i :| i in p.fates && p.fates[i] == SentAs(j);
      assert r.fates[i] == SentAs(j);
    }
  }

  function GaveUp(p: Progress, id: nat, reason: Reason): Progress {
    p.(view := Marked(p.view, Key(OUTBOX, id)), fates := p.fates[id := GivenUp(reason)])
  }

  lemma MarkOutbox(v0: View, p: Progress, id: nat, reason: Reason)
    requires OutboxTraced(v0, p) && id !in p.fates
    requires Key(OUTBOX, id) in p.view.mail && !p.view.mail[Key(OUTBOX, id)].flags.deleted
    requires reason.Expired? ==> reason.now - p.view.mail[Key(OUTBOX, id)].date > UNDELIVERABLE_TIMEOUT_SECS
    ensures OutboxTraced(v0, GaveUp(p, id, reason))
  {
    assert Traced(v0, p, id);
    forall i | Key(OUTBOX, i) in v0.mail ensures Traced(v0, GaveUp(p, id, reason), i) {
      assert Traced(v0, p, i);
    }
  }

  lemma MarkRest(v0: View, p: Progress, destination: string, id: nat, reason: Reason)
    requires InboxTraced(v0, p) && OthersTraced(v0, p) && QueueTraced(v0, p, destination)
    ensures InboxTraced(v0, GaveUp(p, id, reason)) && OthersTraced(v0, GaveUp(p, id, reason))
    ensures QueueTraced(v0, GaveUp(p, id, reason), destination)
  {
  }

  lemma MarkAccounted(v0: View, p: Progress, destination: string, id: nat, reason: Reason)
    requires Accounted(v0, p, destination) && id !in p.fates
    requires Key(OUTBOX, id) in p.view.mail && !p.view.mail[Key(OUTBOX, id)].flags.deleted
    requires reason.Expired? ==> reason.now - p.view.mail[Key(OUTBOX, id)].date > UNDELIVERABLE_TIMEOUT_SECS
    ensures Accounted(v0, GaveUp(p, id, reason), destination)
  {
    MarkOutbox(v0, p, id, reason);
    OtherFateKeepsSent(v0, p, GaveUp(p, id, reason), id);
    MarkRest(v0, p, destination, id, reason);
  }

  function Copied(p: Progress, id: nat, now: int): Progress
    requires Key(OUTBOX, id) in p.view.mail
  {
    p.(view := Put(p.view, INBOX, Message(p.view.mail[Key(OUTBOX, id)].content, now, NO_FLAGS)),
       copies := p.copies[id := Fresh(p.view, INBOX).id])
  }

  lemma CopyOutbox(v0: View, p: Progress, id: nat, now: int)
    requires OutboxTraced(v0, p) && Key(OUTBOX, id) in p.view.mail
    ensures OutboxTraced(v0, Copied(p, id, now))
  {
    forall i | Key(OUTBOX, i) in v0.mail ensures Traced(v0, Copied(p, id, now), i) {
      assert Traced(v0, p, i);
    }
  }

  lemma CopyInbox(v0: View, p: Progress, id: nat, now: int)
    requires OutboxTraced(v0, p) && InboxTraced(v0, p) && id !in p.fates && id !in p.copies
    requires Key(OUTBOX, id) in p.view.mail
    ensures InboxTraced(v0, Copied(p, id, now))
  {
    var r := Copied(p, id, now);
    assert Traced(v0, p, id);
    forall j | Key(INBOX, j) in r.view.mail && Key(INBOX, j) !in v0.mail
      ensures exists i :: i in r.copies && r.copies[i] == j
    {
      if j == Fresh(p.view, INBOX).id {
        assert r.copies[id] == j;
      } else {
        var i :| i in p.copies && p.copies[i] == j;
        assert r.copies[i] == j;
      }
    }
  }

  lemma CopyAccounted(v0: View, p: Progress, destination: string, id: nat, now: int)
    requires Accounted(v0, p, destination) && id !in p.fates && id !in p.copies
    requires Key(OUTBOX, id) in p.view.mail
    ensures Accounted(v0, Copied(p, id, now), destination)
  {
    CopyOutbox(v0, p, id, now);
    CopyInbox(v0, p, id, now);
    CopyRest(v0, p, destination, id, now);
  }

  lemma CopyRest(v0: View, p: Progress, destination: string, id: nat, now: int)
    requires SentTraced(v0, p) && OthersTraced(v0, p) && QueueTraced(v0, p, destination)
    requires Key(OUTBOX, id) in p.view.mail
    ensures SentTraced(v0, Copied(p, id, now)) && OthersTraced(v0, Copied(p, id, now))
    ensures QueueTraced(v0, Copied(p, id, now), destination)
  {
  }

  function Sent(p: Progress, id: nat): Progress
    requires Key(OUTBOX, id) in p.view.mail
  {
    p.(view := Transfer(p.view, Key(OUTBOX, id), SENT), fates := p.fates[id := SentAs(Fresh(p.view, SENT).id)])
  }

  lemma TransferOutbox(v0: View, p: Progress, id: nat)
    requires OutboxTraced(v0, p) && SentTraced(v0, p) && id !in p.fates
    requires Key(OUTBOX, id) in p.view.mail && !p.view.mail[Key(OUTBOX, id)].flags.deleted
    ensures OutboxTraced(v0, Sent(p, id))
  {
    assert Traced(v0, p, id);
    forall i | Key(OUTBOX, i) in v0.mail ensures Traced(v0, Sent(p, id), i) {
      assert Traced(v0, p, i);
    }
  }

  lemma TransferSent(v0: View, p: Progress, id: nat)
    requires OutboxTraced(v0, p) && SentTraced(v0, p) && id !in p.fates
    requires Key(OUTBOX, id) in p.view.mail
    ensures SentTraced(v0, Sent(p, id))
  {
    var to := Fresh(p.view, SENT).id;
    var r := Sent(p, id);
    forall j | Key(SENT, j) in r.view.mail && Key(SENT, j) !in v0.mail
      ensures exists i :: i in r.fates && r.fates[i] == SentAs(j)
    {
      if j == to {
        assert r.fates[id] == SentAs(j);
      } else {
        var i :| i in p.fates && p.fates[i] == SentAs(j);
        assert r.fates[i] == SentAs(j);
      }
    }
    forall i | i in p.fates ensures p.fates[i] != SentAs(to) {
      assert Traced(v0, p, i);
    }
  }

  lemma TransferRest(v0: View, p: Progress, destination: string, id: nat)
    requires InboxTraced(v0, p) && OthersTraced(v0, p) && QueueTraced(v0, p, destination)
    requires Key(OUTBOX, id) in p.view.mail
    ensures InboxTraced(v0, Sent(p, id)) && OthersTraced(v0, Sent(p, id))
    ensures QueueTraced(v0, Sent(p, id), destination)
  {
  }

  lemma TransferAccounted(v0: View, p: Progress, destination: string, id: nat)
    requires Accounted(v0, p, destination) && id !in p.fates
    requires Key(OUTBOX, id) in p.view.mail && !p.view.mail[Key(OUTBOX, id)].flags.deleted
    ensures Accounted(v0, Sent(p, id), destination)
  {
    TransferOutbox(v0, p, id);
    TransferSent(v0, p, id);
    TransferRest(v0, p, destination, id);
  }

  // ----- The whole run -----

  /** The account is about the messages, the fates and the copies, not about the retry counters. */
  lemma SameAccount(v0: View, p: Progress, r: Progress, destination: string)
    requires Accounted(v0, p, destination)
    requires r.view == p.view && r.fates == p.fates && r.copies == p.copies
    ensures Accounted(v0, r, destination)
  {
    forall i | Key(OUTBOX, i) in v0.mail ensures Traced(v0, r, i) {
      assert Traced(v0, p, i);
    }
  }

  lemma OutboxOrigin(v0: View, p: Progress, destination: string, id: nat)
    requires Accounted(v0, p, destination) && Key(OUTBOX, id) in p.view.mail
    ensures Key(OUTBOX, id) in v0.mail
  {
  }

  lemma SettleAccounted(v0: View, p: Progress, destination: string, id: nat, f: Faults)
    requires Accounted(v0, p, destination) && id !in p.fates
    requires Key(OUTBOX, id) in p.view.mail && !p.view.mail[Key(OUTBOX, id)].flags.deleted
    ensures var settled := Settle(p.view, id, f);
      && Accounted(v0, p.(view := settled.view, fates := p.fates[id := settled.fate]), destination)
      && (!settled.ok ==> settled.view == p.view)
  {
    hide Accounted;
    var settled := Settle(p.view, id, f);
    if settled.fate.SentAs? {
      TransferAccounted(v0, p, destination, id);
    } else {
      OutboxOrigin(v0, p, destination, id);
      KeptAccounted(v0, p, destination, id);
    }
  }

  lemma RetireAccounted(v0: View, p: Progress, destination: string, id: nat, delete: Write, pendingFails: bool,
                        mark: Write, reason: Reason)
    requires Accounted(v0, p, destination) && id !in p.fates
    requires Key(OUTBOX, id) in p.view.mail && !p.view.mail[Key(OUTBOX, id)].flags.deleted
    requires reason.Expired? ==> reason.now - p.view.mail[Key(OUTBOX, id)].date > UNDELIVERABLE_TIMEOUT_SECS
    ensures var r := Retire(p.view, destination, id, delete, pendingFails, mark);
      Accounted(v0, p.(view := r.view, fates := p.fates[id := if r.marked then GivenUp(reason) else Kept]), destination)
  {
    hide Accounted;
    var p1 := p.(view := DropRow(p.view, destination, id, delete));
    DropRowAccounted(v0, p, destination, id, delete);
    var r := Retire(p.view, destination, id, delete, pendingFails, mark);
    if r.marked {
      MarkAccounted(v0, p1, destination, id, reason);
    } else {
      OutboxOrigin(v0, p1, destination, id);
      KeptAccounted(v0, p1, destination, id);
    }
  }

  lemma ErrorAccounted(v0: View, p: Progress, destination: string, id: nat, kind: ErrorKind, f: Faults)
    requires Accounted(v0, p, destination) && id !in p.fates
    requires Key(OUTBOX, id) in p.view.mail && !p.view.mail[Key(OUTBOX, id)].flags.deleted
    ensures Accounted(v0, ProcessError(p, destination, id, kind, f), destination)
  {
    hide Accounted;
    var r := ProcessError(p, destination, id, kind, f);
    if kind == PermanentError {
      RetireAccounted(v0, p, destination, id, f.retireDelete, f.retirePending, f.mark, Rejected);
      SameAccount(v0, p.(view := r.view, fates := r.fates), r, destination);
    } else {
      SameAccount(v0, p, r, destination);
    }
  }

  lemma RemoteAccounted(v0: View, p: Progress, destination: string, id: nat, a: Attempt)
    requires Accounted(v0, p, destination) && id !in p.fates
    requires Key(OUTBOX, id) in p.view.mail && !p.view.mail[Key(OUTBOX, id)].flags.deleted
    ensures Accounted(v0, ProcessRemote(p, destination, id, a), destination)
  {
    hide Accounted;
    var r := ProcessRemote(p, destination, id, a);
    if a.send.Failed? {
      ErrorAccounted(v0, p, destination, id, a.send.kind, a.faults);
    } else if a.faults.queueDelete.Fails? {
      ErrorAccounted(v0, p, destination, id, a.faults.kind, a.faults);
    } else {
      var p1 := p.(view := DropRow(p.view, destination, id, a.faults.queueDelete));
      DropRowAccounted(v0, p, destination, id, a.faults.queueDelete);
      SettleAccounted(v0, p1, destination, id, a.faults);
      var settled := Settle(p1.view, id, a.faults);
      if settled.ok {
        SameAccount(v0, p1.(view := settled.view, fates := p.fates[id := settled.fate]), r, destination);
      } else {
        assert p1 == p.(view := settled.view);
        ErrorAccounted(v0, p1, destination, id, a.faults.kind, a.faults);
      }
    }
  }

  /** Deleting the row of a delivered message, and settling it. */
  lemma RecordAccounted(v0: View, p: Progress, destination: string, id: nat, f: Faults)
    requires Accounted(v0, p, destination) && id !in p.fates
    requires Key(OUTBOX, id) in p.view.mail && !p.view.mail[Key(OUTBOX, id)].flags.deleted
    ensures var settled := Settle(DropRow(p.view, destination, id, f.queueDelete), id, f);
      Accounted(v0, p.(view := settled.view, fates := p.fates[id := settled.fate]), destination)
  {
    hide Accounted, Settle, DeleteRow;
    var dropped := p.(view := DropRow(p.view, destination, id, f.queueDelete));
    DropRowAccounted(v0, p, destination, id, f.queueDelete);
    assert dropped.view.mail == p.view.mail by {
      RowsOnly(p.view, destination, id);
    }
    SettleAccounted(v0, dropped, destination, id, f);
  }

  lemma RowsOnly(v: View, destination: string, id: nat)
    ensures DeleteRow(v, destination, id).mail == v.mail
  {
  }

  lemma StillLive(p: Progress, id: nat, now: int)
    requires Key(OUTBOX, id) in p.view.mail
    ensures Key(OUTBOX, id) in Copied(p, id, now).view.mail
    ensures Copied(p, id, now).view.mail[Key(OUTBOX, id)] == p.view.mail[Key(OUTBOX, id)]
    ensures Copied(p, id, now).fates == p.fates
  {
  }

  lemma SelfAccounted(v0: View, p: Progress, destination: string, id: nat, a: Attempt)
    requires Accounted(v0, p, destination) && id !in p.fates && id !in p.copies
    requires Key(OUTBOX, id) in p.view.mail && !p.view.mail[Key(OUTBOX, id)].flags.deleted
    ensures Accounted(v0, ProcessSelf(p, destination, id, a), destination)
  {
    hide Accounted, Settle, DropRow, Fresh, Copied;
    var r, f := ProcessSelf(p, destination, id, a), a.faults;
    if f.create.Fails? || (f.create.Succeeds? && INBOX !in p.view.mailboxes) {
      SameAccount(v0, p, r, destination);
    } else {
      var copied := if f.create.Skipped? then p else Copied(p, id, a.now);
      if f.create.Succeeds? {
        CopyAccounted(v0, p, destination, id, a.now);
        StillLive(p, id, a.now);
      }
      RecordAccounted(v0, copied, destination, id, f);
      var settled := Settle(DropRow(copied.view, destination, id, f.queueDelete), id, f);
      SelfIs(p, destination, id, a, copied, settled);
      SameAccount(v0, copied.(view := settled.view, fates := copied.fates[id := settled.fate]), r, destination);
    }
  }

  lemma SelfIs(p: Progress, destination: string, id: nat, a: Attempt, copied: Progress, settled: Settled)
    requires Key(OUTBOX, id) in p.view.mail
    requires a.faults.create.Skipped? || (a.faults.create.Succeeds? && INBOX in p.view.mailboxes)
    requires copied == if a.faults.create.Skipped? then p else Copied(p, id, a.now)
    requires settled == Settle(DropRow(copied.view, destination, id, a.faults.queueDelete), id, a.faults)
    ensures ProcessSelf(p, destination, id, a)
         == copied.(view := settled.view, fates := copied.fates[id := settled.fate], retryCount := 0)
  {
    hide Settle, DropRow, Fresh;
  }

  lemma FatesGrow(p: Progress, destination: string, self: bool, id: nat, a: Attempt)
    ensures var r := Process(p, destination, self, id, a);
      r.fates.Keys <= p.fates.Keys + {id} && r.copies.Keys <= p.copies.Keys + {id}
  {
  }

  /** One reference, every branch. */
  lemma ProcessAccounted(v0: View, p: Progress, destination: string, self: bool, id: nat, a: Attempt)
    requires Accounted(v0, p, destination) && id !in p.fates && id !in p.copies
    ensures Accounted(v0, Process(p, destination, self, id, a), destination)
  {
    hide Accounted;
    var v, k, f := p.view, Key(OUTBOX, id), a.faults;
    if !p.stopped && !f.select {
      if k !in v.mail {
        MissingRow(v0, p, destination, id, f.queueDelete);
      } else if v.mail[k].flags.deleted {
        OwnerAccounted(v0, p, destination, id, f);
      } else if a.now - v.mail[k].date > UNDELIVERABLE_TIMEOUT_SECS {
        RetireAccounted(v0, p, destination, id, f.queueDelete, f.pending, f.mark, Expired(a.now));
      } else if self {
        SelfAccounted(v0, p, destination, id, a);
      } else {
        RemoteAccounted(v0, p, destination, id, a);
      }
    }
  }

  /** The misdirected delete of a reference whose message is gone finds nothing: the cascade was there first. */
  lemma MissingRow(v0: View, p: Progress, destination: string, id: nat, fault: Write)
    requires Accounted(v0, p, destination) && Key(OUTBOX, id) !in p.view.mail
    ensures DropRow(p.view, OUTBOX, id, fault) == p.view
  {
    assert QueueKey(OUTBOX, Key(OUTBOX, id)) !in p.view.queue;
    assert DeleteRow(p.view, OUTBOX, id).queue == p.view.queue;
  }

  lemma OwnerAccounted(v0: View, p: Progress, destination: string, id: nat, f: Faults)
    requires Accounted(v0, p, destination) && id !in p.fates
    requires Key(OUTBOX, id) in p.view.mail && p.view.mail[Key(OUTBOX, id)].flags.deleted
    ensures var v1 := DropRow(p.view, destination, id, f.queueDelete);
      var last := !f.pending && !Pending(v1, id);
      var w := if last && f.expunge.Succeeds? then Expunged(v1, OUTBOX) else v1;
      Accounted(v0, p.(view := w, fates := p.fates[id := OwnerDeleted]), destination)
  {
    assert Traced(v0, p, id);
    KeptAccounted(v0, p, destination, id);
    var p1 := p.(fates := p.fates[id := OwnerDeleted]);
    DropRowAccounted(v0, p1, destination, id, f.queueDelete);
    ExpungeAccounted(v0, p1.(view := DropRow(p.view, destination, id, f.queueDelete)), destination);
  }

  lemma StartAccounted(v0: View, destination: string, retryCount: nat, permanentFailure: bool)
    requires QueueOk(v0)
    ensures Accounted(v0, Start(v0, retryCount, permanentFailure), destination)
  {
  }

  /** For every list of references, every outcome of the network and every failing statement, the run accounts
      for every message of Outbox, and Sent, INBOX, the other mailboxes and the queue change by exactly that. */
  lemma {:induction false} RunConserves(v0: View, destination: string, self: bool, refs: seq<nat>,
                                        attempts: seq<Attempt>, retryCount: nat, permanentFailure: bool, expunge: Write)
    requires QueueOk(v0) && |refs| == |attempts| && AllDifferent(refs)
    ensures var p := ProcessAll(Start(v0, retryCount, permanentFailure), destination, self, refs, attempts);
      && Accounted(v0, p, destination)
      && Accounted(v0, Finish(p, expunge), destination)
      && (forall id :: id in p.fates || id in p.copies ==> id in refs)
  {
    hide Accounted;
    var p0 := Start(v0, retryCount, permanentFailure);
    var p := ProcessAll(p0, destination, self, refs, attempts);
    if refs == [] {
      StartAccounted(v0, destination, retryCount, permanentFailure);
    } else {
      var n := |refs| - 1;
      RunConserves(v0, destination, self, refs[..n], attempts[..n], retryCount, permanentFailure, expunge);
      var b := ProcessAll(p0, destination, self, refs[..n], attempts[..n]);
      assert refs[n] !in refs[..n];
      ProcessAccounted(v0, b, destination, self, refs[n], attempts[n]);
      FatesGrow(b, destination, self, refs[n], attempts[n]);
      assert refs == refs[..n] + [refs[n]];
    }
    ExpungeAccounted(v0, p, destination);
  }
}
