// Queueing a message: QueueFor in sender.go, on the plain view of the store, with
// every failing or skipped statement.

module Enqueue {
  import opened Types
  import opened StoreModel
  import opened Delivery
  import opened Conservation
  import opened Drain
  import Address

  /** net/mail.ParseAddress is a library: any function from a recipient to its bare address. */
  type Unwrap = string -> Option<string>

  /** How the INSERT of the i-th recipient's row fares. */
  type Inserts = nat -> Write

  /** The queue destination of a recipient: the hex of its key. */
  function HostOf(unwrap: Unwrap, rcpt: string): Option<string> {
    match unwrap(rcpt)
    case None => None
    case Some(address) =>
      var pk := Address.ParseAddress(address);
      if pk.Err? then None else Some(Address.Encode(pk.value))
  }

  /** The recipient's address names a key. */
  predicate Parses(unwrap: Unwrap, rcpt: string) {
    unwrap(rcpt).Some? && Address.ParseAddress(unwrap(rcpt).value).Ok?
  }

  /** Two recipients' addresses name one key, however they spell it. */
  predicate SameKey(unwrap: Unwrap, a: string, b: string) {
    && Parses(unwrap, a) && Parses(unwrap, b)
    && Address.ParseAddress(unwrap(a).value) == Address.ParseAddress(unwrap(b).value)
  }

  /** A destination is 64 lower-case digits that decode to the recipient's key. */
  predicate IsHostOf(unwrap: Unwrap, rcpt: string, d: string) {
    && Parses(unwrap, rcpt)
    && |d| == 64 && Address.ToLower(d) == d
    && Address.Decode(d) == Some(Address.ParseAddress(unwrap(rcpt).value).value)
  }

  lemma HostIsKey(unwrap: Unwrap, rcpt: string, d: string)
    ensures HostOf(unwrap, rcpt).Some? <==> Parses(unwrap, rcpt)
    ensures HostOf(unwrap, rcpt) == Some(d) <==> IsHostOf(unwrap, rcpt, d)
  {
    hide Address.ParseAddress, Address.Decode, Address.Encode, Address.ToLower;
    if Parses(unwrap, rcpt) {
      Address.KeyHex(unwrap(rcpt).value);
      Address.DecodeSpells(d, Address.ParseAddress(unwrap(rcpt).value).value);
    }
  }

  lemma SameHost(unwrap: Unwrap, a: string, b: string)
    requires Parses(unwrap, a) && Parses(unwrap, b)
    ensures HostOf(unwrap, a) == HostOf(unwrap, b) <==> SameKey(unwrap, a, b)
  {
    hide Address.ParseAddress, Address.Encode;
    var p, q := Address.ParseAddress(unwrap(a).value).value, Address.ParseAddress(unwrap(b).value).value;
    if Address.Encode(p) == Address.Encode(q) {
      Address.EncodeInjective(p, q);
    }
  }

  /** Destinations are the keys, for all recipients at once. */
  lemma Hosts(unwrap: Unwrap)
    ensures forall r :: HostOf(unwrap, r).Some? <==> Parses(unwrap, r)
    ensures forall r, d :: IsHostOf(unwrap, r, d) <==> HostOf(unwrap, r) == Some(d)
    ensures forall r :: HostOf(unwrap, r).Some? ==> IsHostOf(unwrap, r, HostOf(unwrap, r).value)
    ensures forall a, b :: SameKey(unwrap, a, b) <==> HostOf(unwrap, a).Some? && HostOf(unwrap, a) == HostOf(unwrap, b)
  {
    hide HostOf, Parses, SameKey, IsHostOf;
    forall r, d ensures IsHostOf(unwrap, r, d) <==> HostOf(unwrap, r) == Some(d) {
      HostIsKey(unwrap, r, d);
    }
    forall r ensures HostOf(unwrap, r).Some? <==> Parses(unwrap, r) {
      HostIsKey(unwrap, r, "");
    }
    forall r | HostOf(unwrap, r).Some? ensures IsHostOf(unwrap, r, HostOf(unwrap, r).value) {
      HostIsKey(unwrap, r, HostOf(unwrap, r).value);
    }
    forall a, b ensures SameKey(unwrap, a, b) <==> HostOf(unwrap, a).Some? && HostOf(unwrap, a) == HostOf(unwrap, b) {
      SameKeyParses(unwrap, a, b);
      if Parses(unwrap, a) && Parses(unwrap, b) {
        SameHost(unwrap, a, b);
      }
    }
  }

  lemma SameKeyParses(unwrap: Unwrap, a: string, b: string)
    ensures SameKey(unwrap, a, b) ==> Parses(unwrap, a) && Parses(unwrap, b)
  {
    hide Address.ParseAddress;
  }

  datatype Queued = Queued(view: View, ok: bool)

  /** One INSERT: a skipped one passes unnoticed. */
  function InsertOne(v: View, id: nat, from: string, rcpt: string, host: Option<string>, fault: Write): Queued {
    if host.None? || fault.Fails? then Queued(v, false)
    else if fault.Skipped? then Queued(v, true)
    else
      var key := QueueKey(host.value, Key(OUTBOX, id));
      if key in v.queue || key.mail !in v.mail then Queued(v, false)
      else Queued(v.(queue := v.queue[key := Envelope(from, rcpt)]), true)
  }

  /** One INSERT per recipient; the first failure ends the loop. */
  function InsertRows(v: View, id: nat, from: string, rcpts: seq<string>, unwrap: Unwrap, inserts: Inserts): Queued {
    if rcpts == [] then Queued(v, true)
    else
      var n := |rcpts| - 1;
      var q := InsertRows(v, id, from, rcpts[..n], unwrap, inserts);
      if !q.ok then q else InsertOne(q.view, id, from, rcpts[n], HostOf(unwrap, rcpts[n]), inserts(n))
  }

  /** A skipped create leaves the id at 0. */
  function QueueFor(v: View, from: string, rcpts: seq<string>, content: Bytes, now: int, unwrap: Unwrap, create: Write,
                    inserts: Inserts): Queued {
    if create.Skipped? then InsertRows(v, 0, from, rcpts, unwrap, inserts)
    else if create.Fails? || OUTBOX !in v.mailboxes then Queued(v, false)
    else InsertRows(Put(v, OUTBOX, Message(content, now, NO_FLAGS)), Fresh(v, OUTBOX).id, from, rcpts, unwrap, inserts)
  }

  /** The recipients that can all be queued: each names a key, no INSERT fails, and no two that are carried out name the
      same key. */
  ghost predicate Deliverable(rcpts: seq<string>, unwrap: Unwrap, inserts: Inserts) {
    && (forall i :: 0 <= i < |rcpts| ==> Parses(unwrap, rcpts[i]) && !inserts(i).Fails?)
    && (forall i, j :: 0 <= i < j < |rcpts| && inserts(i).Succeeds? && inserts(j).Succeeds? ==>
          !SameKey(unwrap, rcpts[i], rcpts[j]))
  }

  /** The recipient's row, under the hex of its key. */
  ghost predicate RowFor(v: View, id: nat, from: string, rcpt: string, unwrap: Unwrap) {
    exists d :: IsHostOf(unwrap, rcpt, d) && IsRow(v, d, id, Envelope(from, rcpt))
  }

  predicate IsRow(v: View, d: string, id: nat, envelope: Envelope) {
    QueueKey(d, Key(OUTBOX, id)) in v.queue && v.queue[QueueKey(d, Key(OUTBOX, id))] == envelope
  }

  /** Recipient i is the first whose row is really inserted. */
  ghost predicate FirstRow(rcpts: seq<string>, unwrap: Unwrap, inserts: Inserts, i: nat) {
    && i < |rcpts| && Parses(unwrap, rcpts[i]) && inserts(i).Succeeds?
    && forall j :: 0 <= j < i ==> Parses(unwrap, rcpts[j]) && inserts(j).Skipped?
  }

  ghost predicate OpensRow(rcpts: seq<string>, unwrap: Unwrap, inserts: Inserts) {
    exists i: nat :: FirstRow(rcpts, unwrap, inserts, i)
  }

  /** Inserting rows for a message adds only rows of that message, each for one of its recipients. */
  lemma {:induction false} InsertRowsOnlyAdds(v: View, id: nat, from: string, rcpts: seq<string>, unwrap: Unwrap,
                                              inserts: Inserts)
    ensures var r := InsertRows(v, id, from, rcpts, unwrap, inserts).view;
      && r.mail == v.mail && r.mailboxes == v.mailboxes
      && (forall q :: q in v.queue ==> q in r.queue && r.queue[q] == v.queue[q])
      && (forall q :: q in r.queue && q !in v.queue ==>
            && q.mail == Key(OUTBOX, id) && q.mail in v.mail
            && exists i :: 0 <= i < |rcpts| && inserts(i).Succeeds? && IsHostOf(unwrap, rcpts[i], q.destination))
  {
    hide HostOf, Parses, SameKey, IsHostOf;
    Hosts(unwrap);
    if rcpts != [] {
      var n := |rcpts| - 1;
      InsertRowsOnlyAdds(v, id, from, rcpts[..n], unwrap, inserts);
      assert forall i :: 0 <= i < n ==> rcpts[..n][i] == rcpts[i];
    }
  }

  /** As long as every INSERT is skipped the loop goes on and nothing is added. */
  lemma {:induction false} AllSkipped(v: View, id: nat, from: string, rcpts: seq<string>, unwrap: Unwrap,
                                      inserts: Inserts, n: nat)
    requires n <= |rcpts| && forall j :: 0 <= j < n ==> Parses(unwrap, rcpts[j]) && inserts(j).Skipped?
    ensures InsertRows(v, id, from, rcpts[..n], unwrap, inserts) == Queued(v, true)
  {
    hide HostOf, Parses, SameKey, IsHostOf;
    Hosts(unwrap);
    if n > 0 {
      AllSkipped(v, id, from, rcpts, unwrap, inserts, n - 1);
      assert rcpts[..n][..n - 1] == rcpts[..n - 1];
    }
  }

  /** Some row is added exactly when the first recipient whose INSERT is not skipped gets its row. */
  lemma {:induction false} InsertRowsPending(v: View, id: nat, from: string, rcpts: seq<string>, unwrap: Unwrap,
                                             inserts: Inserts)
    requires Key(OUTBOX, id) in v.mail && forall q :: q in v.queue ==> q.mail != Key(OUTBOX, id)
    ensures Pending(InsertRows(v, id, from, rcpts, unwrap, inserts).view, id) <==> OpensRow(rcpts, unwrap, inserts)
  {
    hide HostOf, Parses, SameKey, IsHostOf, FirstRow;
    Hosts(unwrap);
    if rcpts == [] {
      NoFirstRow(unwrap, inserts);
    } else {
      var n := |rcpts| - 1;
      var q, r := InsertRows(v, id, from, rcpts[..n], unwrap, inserts), InsertRows(v, id, from, rcpts, unwrap, inserts);
      InsertRowsPending(v, id, from, rcpts[..n], unwrap, inserts);
      OpensLater(rcpts, unwrap, inserts);
      if Pending(q.view, id) {
        var x :| x in q.view.queue && x.mail == Key(OUTBOX, id);
        assert x in r.view.queue;
      } else {
        LastOpens(v, id, from, rcpts, unwrap, inserts);
      }
    }
  }

  lemma NoFirstRow(unwrap: Unwrap, inserts: Inserts)
    ensures !OpensRow([], unwrap, inserts)
  {
  }

  lemma OpensLater(rcpts: seq<string>, unwrap: Unwrap, inserts: Inserts)
    requires rcpts != []
    ensures OpensRow(rcpts, unwrap, inserts)
      <==> OpensRow(rcpts[..|rcpts| - 1], unwrap, inserts) || FirstRow(rcpts, unwrap, inserts, |rcpts| - 1)
  {
    hide HostOf, Parses, SameKey, IsHostOf;
    Hosts(unwrap);
    var n := |rcpts| - 1;
    forall i: nat | i < n ensures FirstRow(rcpts, unwrap, inserts, i) <==> FirstRow(rcpts[..n], unwrap, inserts, i) {
      assert forall j :: 0 <= j < n ==> rcpts[..n][j] == rcpts[j];
    }
    forall i: nat | FirstRow(rcpts[..n], unwrap, inserts, i) ensures i < n {
    }
    forall i: nat | FirstRow(rcpts, unwrap, inserts, i) ensures i <= n {
    }
  }

  /** With nothing added so far, the last recipient adds a row exactly if all before it were skipped. */
  lemma LastOpens(v: View, id: nat, from: string, rcpts: seq<string>, unwrap: Unwrap, inserts: Inserts)
    requires Key(OUTBOX, id) in v.mail && forall q :: q in v.queue ==> q.mail != Key(OUTBOX, id)
    requires rcpts != [] && !Pending(InsertRows(v, id, from, rcpts[..|rcpts| - 1], unwrap, inserts).view, id)
    ensures Pending(InsertRows(v, id, from, rcpts, unwrap, inserts).view, id) <==>
      FirstRow(rcpts, unwrap, inserts, |rcpts| - 1)
  {
    hide HostOf, Parses, SameKey, IsHostOf, InsertOne, Pending;
    Hosts(unwrap);
    var n := |rcpts| - 1;
    var q := InsertRows(v, id, from, rcpts[..n], unwrap, inserts);
    OnlySkipped(v, id, from, rcpts[..n], unwrap, inserts);
    assert forall j :: 0 <= j < n ==> rcpts[..n][j] == rcpts[j];
    if q.ok {
      AllSkipped(v, id, from, rcpts, unwrap, inserts, n);
      OneOpens(v, id, from, rcpts[n], HostOf(unwrap, rcpts[n]), inserts(n));
    } else if FirstRow(rcpts, unwrap, inserts, n) {
      AllSkipped(v, id, from, rcpts, unwrap, inserts, n);
    }
  }

  lemma OneOpens(v: View, id: nat, from: string, rcpt: string, host: Option<string>, fault: Write)
    requires Key(OUTBOX, id) in v.mail && forall q :: q in v.queue ==> q.mail != Key(OUTBOX, id)
    ensures Pending(InsertOne(v, id, from, rcpt, host, fault).view, id) <==> host.Some? && fault.Succeeds?
  {
    if host.Some? && fault.Succeeds? {
      assert QueueKey(host.value, Key(OUTBOX, id)) in InsertOne(v, id, from, rcpt, host, fault).view.queue;
    }
  }

  /** A loop that got through without adding a row skipped every INSERT. */
  lemma {:induction false} OnlySkipped(v: View, id: nat, from: string, rcpts: seq<string>, unwrap: Unwrap,
                                       inserts: Inserts)
    ensures var r := InsertRows(v, id, from, rcpts, unwrap, inserts);
      r.ok && !Pending(r.view, id) ==> forall j :: 0 <= j < |rcpts| ==>
        Parses(unwrap, rcpts[j]) && inserts(j).Skipped?
  {
    hide HostOf, Parses, SameKey, IsHostOf, Pending, InsertOne;
    Hosts(unwrap);
    if rcpts != [] {
      var n := |rcpts| - 1;
      OnlySkipped(v, id, from, rcpts[..n], unwrap, inserts);
      OneSkipped(InsertRows(v, id, from, rcpts[..n], unwrap, inserts).view, id, from, rcpts[n],
                 HostOf(unwrap, rcpts[n]), inserts(n));
      assert forall j :: 0 <= j < n ==> rcpts[..n][j] == rcpts[j];
    }
  }

  lemma OneSkipped(v: View, id: nat, from: string, rcpt: string, host: Option<string>, fault: Write)
    ensures var r := InsertOne(v, id, from, rcpt, host, fault);
      && (r.ok && !Pending(r.view, id) ==> host.Some? && fault.Skipped?)
      && (Pending(v, id) ==> Pending(r.view, id))
  {
    var r := InsertOne(v, id, from, rcpt, host, fault);
    if r.ok && fault.Succeeds? {
      assert QueueKey(host.value, Key(OUTBOX, id)) in r.view.queue;
    }
    if Pending(v, id) {
      var q :| q in v.queue && q.mail == Key(OUTBOX, id);
      assert q in r.view.queue;
    }
  }

  ghost predicate HasRows(w: View, id: nat, from: string, rcpts: seq<string>, unwrap: Unwrap, inserts: Inserts) {
    forall i :: 0 <= i < |rcpts| && inserts(i).Succeeds? ==> RowFor(w, id, from, rcpts[i], unwrap)
  }

  /** Some earlier row that is carried out has the destination of the last recipient. */
  ghost predicate LastCollides(rcpts: seq<string>, unwrap: Unwrap, inserts: Inserts)
    requires rcpts != []
  {
    exists i ::
      0 <= i < |rcpts| - 1 && inserts(i).Succeeds? && SameKey(unwrap, rcpts[i], rcpts[|rcpts| - 1])
  }

  /** The primary key refuses the last recipient's row exactly when an earlier row has its destination. */
  lemma Collides(v: View, id: nat, from: string, rcpts: seq<string>, unwrap: Unwrap, inserts: Inserts)
    requires (forall q :: q in v.queue ==> q.mail != Key(OUTBOX, id)) && rcpts != []
    requires HostOf(unwrap, rcpts[|rcpts| - 1]).Some?
    requires var before := rcpts[..|rcpts| - 1];
      HasRows(InsertRows(v, id, from, before, unwrap, inserts).view, id, from, before, unwrap, inserts)
    ensures var n := |rcpts| - 1;
      LastCollides(rcpts, unwrap, inserts) <==>
        QueueKey(HostOf(unwrap, rcpts[n]).value, Key(OUTBOX, id))
          in InsertRows(v, id, from, rcpts[..n], unwrap, inserts).view.queue
  {
    hide HostOf, Parses, SameKey, IsHostOf;
    Hosts(unwrap);
    var n := |rcpts| - 1;
    var before := rcpts[..n];
    var q := InsertRows(v, id, from, before, unwrap, inserts).view;
    var key := QueueKey(HostOf(unwrap, rcpts[n]).value, Key(OUTBOX, id));
    InsertRowsOnlyAdds(v, id, from, before, unwrap, inserts);
    if key in q.queue {
      var i :| 0 <= i < n && inserts(i).Succeeds? && HostOf(unwrap, before[i]) == Some(key.destination);
      assert HostOf(unwrap, rcpts[i]) == HostOf(unwrap, rcpts[n]);
    }
    if i :| 0 <= i < n && inserts(i).Succeeds? && HostOf(unwrap, rcpts[i]) == HostOf(unwrap, rcpts[n]) {
      assert RowFor(q, id, from, before[i], unwrap);
    }
  }

  lemma NoRows(v: View, id: nat, from: string, unwrap: Unwrap, inserts: Inserts)
    ensures Deliverable([], unwrap, inserts) && HasRows(v, id, from, [], unwrap, inserts)
  {
  }

  lemma DeliverableSnoc(rcpts: seq<string>, unwrap: Unwrap, inserts: Inserts)
    requires rcpts != []
    ensures var n := |rcpts| - 1;
      Deliverable(rcpts, unwrap, inserts) <==>
        && Deliverable(rcpts[..n], unwrap, inserts) && Parses(unwrap, rcpts[n]) && !inserts(n).Fails?
        && (inserts(n).Succeeds? ==> !LastCollides(rcpts, unwrap, inserts))
  {
    hide HostOf, Parses, SameKey, IsHostOf;
    Hosts(unwrap);
    assert forall i :: 0 <= i < |rcpts| - 1 ==> rcpts[..|rcpts| - 1][i] == rcpts[i];
  }

  lemma RowsSnoc(q: View, r: View, id: nat, from: string, rcpts: seq<string>, unwrap: Unwrap, inserts: Inserts)
    requires rcpts != [] && HasRows(q, id, from, rcpts[..|rcpts| - 1], unwrap, inserts)
    requires forall k :: k in q.queue ==> k in r.queue && r.queue[k] == q.queue[k]
    requires inserts(|rcpts| - 1).Succeeds? ==> RowFor(r, id, from, rcpts[|rcpts| - 1], unwrap)
    ensures HasRows(r, id, from, rcpts, unwrap, inserts)
  {
    hide HostOf, Parses, SameKey, IsHostOf;
    Hosts(unwrap);
    var n := |rcpts| - 1;
    forall i | 0 <= i < |rcpts| && inserts(i).Succeeds? ensures RowFor(r, id, from, rcpts[i], unwrap) {
      if i < n {
        assert RowFor(q, id, from, rcpts[..n][i], unwrap);
      }
    }
  }

  /** The last recipient, after all before it got their rows. */
  lemma LastSucceeds(v: View, id: nat, from: string, rcpts: seq<string>, unwrap: Unwrap, inserts: Inserts)
    requires Key(OUTBOX, id) in v.mail && (forall q :: q in v.queue ==> q.mail != Key(OUTBOX, id)) && rcpts != []
    requires Deliverable(rcpts[..|rcpts| - 1], unwrap, inserts)
    requires var q := InsertRows(v, id, from, rcpts[..|rcpts| - 1], unwrap, inserts);
      q.ok && q.view.mail == v.mail && HasRows(q.view, id, from, rcpts[..|rcpts| - 1], unwrap, inserts)
    ensures var r := InsertRows(v, id, from, rcpts, unwrap, inserts);
      && (r.ok <==> Deliverable(rcpts, unwrap, inserts))
      && (r.ok ==> HasRows(r.view, id, from, rcpts, unwrap, inserts))
  {
    hide HostOf, Parses, SameKey, IsHostOf, Deliverable, HasRows, LastCollides;
    Hosts(unwrap);
    var n := |rcpts| - 1;
    var q, r := InsertRows(v, id, from, rcpts[..n], unwrap, inserts).view, InsertRows(v, id, from, rcpts, unwrap,
        inserts);
    DeliverableSnoc(rcpts, unwrap, inserts);
    if HostOf(unwrap, rcpts[n]).Some? {
      Collides(v, id, from, rcpts, unwrap, inserts);
      if r.ok {
        RowsSnoc(q, r.view, id, from, rcpts, unwrap, inserts);
      }
    }
  }

  lemma {:induction false} InsertRowsSucceed(v: View, id: nat, from: string, rcpts: seq<string>, unwrap: Unwrap,
                                             inserts: Inserts)
    requires Key(OUTBOX, id) in v.mail && forall q :: q in v.queue ==> q.mail != Key(OUTBOX, id)
    ensures var r := InsertRows(v, id, from, rcpts, unwrap, inserts);
      && (r.ok <==> Deliverable(rcpts, unwrap, inserts))
      && (r.ok ==> HasRows(r.view, id, from, rcpts, unwrap, inserts))
  {
    hide HostOf, Parses, SameKey, IsHostOf, Deliverable, HasRows, InsertOne, LastCollides;
    Hosts(unwrap);
    if rcpts == [] {
      NoRows(v, id, from, unwrap, inserts);
    } else {
      var n := |rcpts| - 1;
      InsertRowsSucceed(v, id, from, rcpts[..n], unwrap, inserts);
      InsertRowsOnlyAdds(v, id, from, rcpts[..n], unwrap, inserts);
      DeliverableSnoc(rcpts, unwrap, inserts);
      if InsertRows(v, id, from, rcpts[..n], unwrap, inserts).ok {
        LastSucceeds(v, id, from, rcpts, unwrap, inserts);
      }
    }
  }

  /** Queueing succeeds exactly for recipients with destinations of their own, then adds one message and, for every
      recipient whose INSERT is not skipped, exactly one row; and it keeps Outbox free of stranded messages exactly
      when some row is opened. */
  lemma QueueForExact(v: View, from: string, rcpts: seq<string>, content: Bytes, now: int, unwrap: Unwrap,
                      inserts: Inserts)
    requires QueueOk(v)
    ensures var r := QueueFor(v, from, rcpts, content, now, unwrap, Succeeds, inserts);
      var k := Fresh(v, OUTBOX);
      && (r.ok <==> OUTBOX in v.mailboxes && Deliverable(rcpts, unwrap, inserts))
      && QueueOk(r.view) && r.view.mailboxes == v.mailboxes
      && (OUTBOX in v.mailboxes ==> r.view.mail == v.mail[k := Message(content, now, NO_FLAGS)])
      && (OUTBOX !in v.mailboxes ==> r.view == v)
      && (forall q :: q in v.queue ==> q in r.view.queue && r.view.queue[q] == v.queue[q])
      && (r.ok ==> forall i :: 0 <= i < |rcpts| && inserts(i).Succeeds? ==>
            RowFor(r.view, k.id, from, rcpts[i], unwrap))
      && (forall q :: q in r.view.queue && q !in v.queue ==>
            && q.mail == k
            && exists i :: 0 <= i < |rcpts| && inserts(i).Succeeds? && IsHostOf(unwrap, rcpts[i], q.destination))
    ensures NoStranded(v) && OUTBOX in v.mailboxes ==>
      (NoStranded(QueueFor(v, from, rcpts, content, now, unwrap, Succeeds, inserts).view) <==>
            OpensRow(rcpts, unwrap, inserts))
  {
    hide HostOf, Parses, SameKey, IsHostOf, OpensRow;
    Hosts(unwrap);
    if OUTBOX in v.mailboxes {
      var k := Fresh(v, OUTBOX);
      var put := Put(v, OUTBOX, Message(content, now, NO_FLAGS));
      InsertRowsOnlyAdds(put, k.id, from, rcpts, unwrap, inserts);
      InsertRowsSucceed(put, k.id, from, rcpts, unwrap, inserts);
      InsertRowsPending(put, k.id, from, rcpts, unwrap, inserts);
      var r := InsertRows(put, k.id, from, rcpts, unwrap, inserts);
      if NoStranded(v) {
        QueueForStrands(v, r.view, k.id);
      }
    }
  }

  /** Every recipient has a destination, and no INSERT is carried out or fails. */
  ghost predicate AllLost(rcpts: seq<string>, unwrap: Unwrap, inserts: Inserts) {
    forall i :: 0 <= i < |rcpts| ==> Parses(unwrap, rcpts[i]) && inserts(i).Skipped?
  }

  /** When the create fails nothing is queued; when it is skipped the rows have no message to refer to, so nothing is
      queued either, and that passes for success exactly if every row is skipped too. */
  lemma QueueForLost(v: View, from: string, rcpts: seq<string>, content: Bytes, now: int, unwrap: Unwrap, create: Write,
                     inserts: Inserts)
    requires !create.Succeeds? && Key(OUTBOX, 0) !in v.mail
    ensures var r := QueueFor(v, from, rcpts, content, now, unwrap, create, inserts);
      && r.view == v
      && (r.ok <==> create.Skipped? && AllLost(rcpts, unwrap, inserts))
  {
    if create.Skipped? {
      NoMessageNoRows(v, from, rcpts, unwrap, inserts);
    }
  }

  lemma {:induction false} NoMessageNoRows(v: View, from: string, rcpts: seq<string>, unwrap: Unwrap, inserts: Inserts)
    requires Key(OUTBOX, 0) !in v.mail
    ensures var r := InsertRows(v, 0, from, rcpts, unwrap, inserts);
      && r.view == v
      && (r.ok <==> AllLost(rcpts, unwrap, inserts))
  {
    hide HostOf, Parses, SameKey, IsHostOf;
    Hosts(unwrap);
    if rcpts != [] {
      var n := |rcpts| - 1;
      NoMessageNoRows(v, from, rcpts[..n], unwrap, inserts);
      assert forall i :: 0 <= i < n ==> rcpts[..n][i] == rcpts[i];
    }
  }

  lemma QueueForStrands(v: View, w: View, id: nat)
    requires NoStranded(v) && Key(OUTBOX, id) !in v.mail && Live(w, id)
    requires w.mail == v.mail[Key(OUTBOX, id) := w.mail[Key(OUTBOX, id)]]
    requires forall q :: q in v.queue ==> q in w.queue
    ensures NoStranded(w) <==> Pending(w, id)
  {
    forall i | i != id ensures !Stranded(w, i) {
      assert !Stranded(v, i);
      if Live(w, i) {
        var q :| q in v.queue && q.mail == Key(OUTBOX, i);
        assert q in w.queue;
      }
    }
    assert Stranded(w, id) <==> !Pending(w, id);
  }
}
