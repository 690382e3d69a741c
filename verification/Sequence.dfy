// Sequence numbers: the `inboxes` view of table_mails.go numbers the live ids of a
// mailbox 1, 2, 3, ... in id order. Section 2.3.1.2 of RFC 3501.

module Sequence {
  import opened Types
  import opened StoreModel

  function UpTo(ids: set<nat>, id: nat): set<nat> {
    set j | j in ids && j <= id
  }

  /** ROW_NUMBER() OVER (PARTITION BY mailbox): how many live ids there are up to this one. */
  function SeqOf(ids: set<nat>, id: nat): nat {
    |UpTo(ids, id)|
  }

  predicate Increasing(r: seq<nat>) {
    forall i, j :: 0 <= i < j < |r| ==> r[i] < r[j]
  }

  function Elements(r: seq<nat>): set<nat> {
    set i | i in r
  }

  function Largest(ids: set<nat>): (m: nat)
    requires ids != {}
    ensures m in ids && forall i :: i in ids ==> i <= m
  {
    MaxExists(ids);
    var m :| m in ids && forall i :: i in ids ==> i <= m;
    m
  }

  /** The live ids in ascending order, as MailSearch returns them. */
  function Ascending(ids: set<nat>): (r: seq<nat>)
    ensures Increasing(r) && Elements(r) == ids
  {
    if ids == {} then []
    else
      var m := Largest(ids);
      var rest := Ascending(ids - {m});
      assert forall i :: 0 <= i < |rest| ==> rest[i] in Elements(rest);
      assert Elements(rest + [m]) == Elements(rest) + {m};
      rest + [m]
  }

  /** MailIDForSeq. */
  function IdForSeq(ids: set<nat>, n: nat): Option<nat> {
    if 1 <= n <= |Ascending(ids)| then Some(Ascending(ids)[n - 1]) else None
  }

  lemma {:induction false} ElementCount(r: seq<nat>)
    requires Increasing(r)
    ensures |Elements(r)| == |r|
  {
    if r != [] {
      var n := |r| - 1;
      ElementCount(r[..n]);
      assert Elements(r) == Elements(r[..n]) + {r[n]};
    }
  }

  /** The id at position n is the one with n live ids before it. */
  lemma PositionIsRank(ids: set<nat>, n: nat)
    requires n < |Ascending(ids)|
    ensures SeqOf(ids, Ascending(ids)[n]) == n + 1
  {
    hide Ascending;
    var r := Ascending(ids);
    ElementCount(r[..n + 1]);
    forall j ensures j in ids && j <= r[n] <==> j in Elements(r[..n + 1]) {
      if j in ids && j <= r[n] {
        assert j in Elements(r);
        var i :| 0 <= i < |r| && r[i] == j;
        assert r[..n + 1][i] == j;
      }
      if j in Elements(r[..n + 1]) {
        var i :| 0 <= i < n + 1 && r[..n + 1][i] == j;
        assert r[i] == j && j in Elements(r);
      }
    }
    assert UpTo(ids, r[n]) == Elements(r[..n + 1]);
  }

  /** The two numberings are inverse bijections between 1..count and the live ids. */
  lemma SeqAndIdAreInverse(ids: set<nat>)
    ensures forall id :: id in ids ==> 1 <= SeqOf(ids, id) <= |ids| && IdForSeq(ids, SeqOf(ids, id)) == Some(id)
    ensures forall n: nat :: IdForSeq(ids, n).Some? <==> 1 <= n <= |ids|
    ensures forall n: nat :: 1 <= n <= |ids| ==>
      IdForSeq(ids, n).value in ids && SeqOf(ids, IdForSeq(ids, n).value) == n
  {
    hide Ascending;
    var r := Ascending(ids);
    ElementCount(r);
    forall n: nat | 1 <= n <= |ids| ensures IdForSeq(ids, n).value in ids && SeqOf(ids, IdForSeq(ids, n).value) == n {
      PositionIsRank(ids, n - 1);
      assert r[n - 1] in Elements(r);
    }
    forall id | id in ids ensures 1 <= SeqOf(ids, id) <= |ids| && IdForSeq(ids, SeqOf(ids, id)) == Some(id) {
      assert id in Elements(r);
      var i :| 0 <= i < |r| && r[i] == id;
      PositionIsRank(ids, i);
    }
  }

  /** And they keep the order. */
  lemma SeqKeepsOrder(ids: set<nat>, i: nat, j: nat)
    requires i in ids && j in ids
    ensures SeqOf(ids, i) < SeqOf(ids, j) <==> i < j
  {
    var upToI, upToJ := UpTo(ids, i), UpTo(ids, j);
    if i < j {
      assert upToI + {j} <= upToJ && j !in upToI;
      SubsetCount(upToI + {j}, upToJ);
    } else {
      assert upToJ <= upToI;
      SubsetCount(upToJ, upToI);
    }
  }

  lemma {:induction false} SubsetCount(a: set<nat>, b: set<nat>)
    requires a <= b
    ensures |a| <= |b|
  {
    if x :| x in a {
      SubsetCount(a - {x}, b - {x});
    }
  }

  /** A new message gets the next sequence number and leaves the others alone. */
  lemma NewMessageIsLast(s: Store, mailbox: string, row: Row, id: nat)
    requires InsertMail(s, mailbox, row, false).result == Ok(id)
    ensures var before := IdsIn(s.mails.Keys, mailbox);
      var after := IdsIn(InsertMail(s, mailbox, row, false).store.mails.Keys, mailbox);
      && |after| == |before| + 1
      && SeqOf(after, id) == |after|
      && forall i :: i in before ==> SeqOf(after, i) == SeqOf(before, i)
  {
    var before := IdsIn(s.mails.Keys, mailbox);
    var after := IdsIn(InsertMail(s, mailbox, row, false).store.mails.Keys, mailbox);
    assert after == before + {id} && id !in before;
    assert UpTo(after, id) == after;
    forall i | i in before ensures SeqOf(after, i) == SeqOf(before, i) {
      assert UpTo(after, i) == UpTo(before, i);
    }
  }

  /** Removing messages renumbers the others by the number of those removed before each. */
  lemma RemovalRenumbers(before: set<nat>, removed: set<nat>, id: nat)
    requires removed <= before && id in before - removed
    ensures SeqOf(before - removed, id) == SeqOf(before, id) - |UpTo(removed, id)|
  {
    var kept, gone := UpTo(before - removed, id), UpTo(removed, id);
    assert UpTo(before, id) == kept + gone;
  }

  /** The ids that an expunge removes: none when it is skipped. */
  function Expunging(s: Store, mailbox: string, f: ExpungeFaults): set<nat> {
    if f.begin then {} else IdsIn(DeletedIn(s, mailbox), mailbox)
  }

  /** After an expunge the survivors are numbered in the order they had. */
  lemma ExpungeKeepsOrder(s: Store, mailbox: string, withFiles: bool, f: ExpungeFaults)
    requires Expunge(s, mailbox, withFiles, f).result.Ok?
    ensures var before, removed := IdsIn(s.mails.Keys, mailbox), Expunging(s, mailbox, f);
      var after := IdsIn(Expunge(s, mailbox, withFiles, f).store.mails.Keys, mailbox);
      && after == before - removed
      && (forall i :: i in after ==> SeqOf(after, i) == SeqOf(before, i) - |UpTo(removed, i)|)
      && (forall i, j :: i in after && j in after ==>
            (SeqOf(after, i) < SeqOf(after, j) <==> SeqOf(before, i) < SeqOf(before, j)))
  {
    var before, removed := IdsIn(s.mails.Keys, mailbox), Expunging(s, mailbox, f);
    var after := IdsIn(Expunge(s, mailbox, withFiles, f).store.mails.Keys, mailbox);
    assert after == before - removed;
    forall i | i in after ensures SeqOf(after, i) == SeqOf(before, i) - |UpTo(removed, i)| {
      RemovalRenumbers(before, removed, i);
    }
    forall i, j | i in after && j in after
      ensures SeqOf(after, i) < SeqOf(after, j) <==> SeqOf(before, i) < SeqOf(before, j)
    {
      SeqKeepsOrder(before, i, j);
      SeqKeepsOrder(after, i, j);
    }
  }
}
