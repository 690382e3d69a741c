// The bulk operations of mailbox.go: what a sequence set selects, and what copying
// or moving the selected messages does, on values.

module Bulk {
  import opened Types
  import opened StoreModel
  import opened Refinement
  import opened Sequence
  import opened Paths

  // ----- Sequence sets -----

  /** One element of a sequence set; a stop of 0 stands for `*`. */
  datatype Range = Range(start: nat, stop: nat)

  function Stop(r: Range, next: nat): int {
    if r.stop == 0 then next - 1 else r.stop
  }

  function Span(lo: nat, hi: int): (r: seq<nat>)
    ensures |r| == if hi < lo then 0 else hi - lo + 1
    ensures forall i :: 0 <= i < |r| ==> r[i] == lo + i
  {
    if hi < lo then [] else Span(lo, hi - 1) + [hi]
  }

  /** All the numbers a sequence set names, in order. */
  function Numbers(ranges: seq<Range>, next: nat): seq<nat> {
    if ranges == [] then []
    else
      var n := |ranges| - 1;
      Numbers(ranges[..n], next) + Span(ranges[n].start, Stop(ranges[n], next))
  }

  predicate Covers(r: Range, next: nat, n: nat) {
    r.start <= n <= Stop(r, next)
  }

  /** UIDs stand for themselves; sequence numbers are looked up, and a number without a message is an error. */
  function Lookup(uid: bool, ids: set<nat>, n: nat): Option<nat> {
    if uid then Some(n) else IdForSeq(ids, n)
  }

  function LookupAll(uid: bool, ids: set<nat>, numbers: seq<nat>): Option<seq<nat>> {
    if numbers == [] then Some([])
    else
      var n := |numbers| - 1;
      var before, last := LookupAll(uid, ids, numbers[..n]), Lookup(uid, ids, numbers[n]);
      if before.None? || last.None? then None else Some(before.value + [last.value])
  }

  function Resolve(uid: bool, keys: set<Key>, mailbox: string, ranges: seq<Range>): Option<seq<nat>> {
    LookupAll(uid, IdsIn(keys, mailbox), Numbers(ranges, NextId(keys, mailbox)))
  }

  lemma {:induction false} NumbersCovered(ranges: seq<Range>, next: nat, n: nat)
    ensures n in Numbers(ranges, next) <==> exists k :: 0 <= k < |ranges| && Covers(ranges[k], next, n)
  {
    if ranges != [] {
      var last := |ranges| - 1;
      NumbersCovered(ranges[..last], next, n);
      var lo, hi := ranges[last].start, Stop(ranges[last], next);
      assert n in Span(lo, hi) <==> Covers(ranges[last], next, n) by {
        if lo <= n <= hi {
          assert Span(lo, hi)[n - lo] == n;
        }
      }
      if k :| 0 <= k < |ranges| && Covers(ranges[k], next, n) {
        assert k == last || Covers(ranges[..last][k], next, n);
      }
      if k :| 0 <= k < last && Covers(ranges[..last][k], next, n) {
        assert Covers(ranges[k], next, n);
      }
    }
  }

  lemma {:induction false} LookupPointwise(uid: bool, ids: set<nat>, numbers: seq<nat>)
    ensures var r := LookupAll(uid, ids, numbers);
      && (r.Some? <==> forall i :: 0 <= i < |numbers| ==> Lookup(uid, ids, numbers[i]).Some?)
      && (r.Some? ==> |r.value| == |numbers| && forall i :: 0 <= i < |numbers| ==>
            Some(r.value[i]) == Lookup(uid, ids, numbers[i]))
  {
    hide Lookup;
    if numbers != [] {
      var n := |numbers| - 1;
      LookupPointwise(uid, ids, numbers[..n]);
      assert forall i :: 0 <= i < n ==> numbers[..n][i] == numbers[i];
    }
  }

  lemma NothingToLookUp(uid: bool, ids: set<nat>, next: nat)
    ensures Numbers([], next) == [] && LookupAll(uid, ids, []) == Some([])
  {
  }

  lemma NumbersSnoc(ranges: seq<Range>, next: nat, k: nat)
    requires k < |ranges|
    ensures Numbers(ranges[..k + 1], next) == Numbers(ranges[..k], next) + Span(ranges[k].start, Stop(ranges[k], next))
  {
    assert ranges[..k + 1][..k] == ranges[..k];
  }

  lemma LookupSnoc(uid: bool, ids: set<nat>, numbers: seq<nat>, n: nat)
    ensures var before, last := LookupAll(uid, ids, numbers), Lookup(uid, ids, n);
      LookupAll(uid, ids, numbers + [n])
        == if before.None? || last.None? then None else Some(before.value + [last.value])
  {
    var all := numbers + [n];
    assert all[..|all| - 1] == numbers;
  }

  /** A failed lookup fails every longer list. */
  lemma {:induction false} LookupFails(uid: bool, ids: set<nat>, numbers: seq<nat>, more: seq<nat>)
    requires LookupAll(uid, ids, numbers).None?
    ensures LookupAll(uid, ids, numbers + more).None?
  {
    hide Lookup;
    if more == [] {
      assert numbers + more == numbers;
    } else {
      var n := |more| - 1;
      LookupFails(uid, ids, numbers, more[..n]);
      assert numbers + more == numbers + more[..n] + [more[n]];
      LookupSnoc(uid, ids, numbers + more[..n], more[n]);
    }
  }

  lemma {:induction false} NumbersSplit(ranges: seq<Range>, next: nat, k: nat) returns (more: seq<nat>)
    requires k < |ranges|
    ensures Numbers(ranges, next) == Numbers(ranges[..k], next) + Span(ranges[k].start, Stop(ranges[k], next)) + more
  {
    var n := |ranges| - 1;
    if k == n {
      more := [];
    } else {
      var rest := NumbersSplit(ranges[..n], next, k);
      assert ranges[..n][..k] == ranges[..k];
      more := rest + Span(ranges[n].start, Stop(ranges[n], next));
    }
  }

  /** The range names n: from its start up to its stop, or, when that is `*`, up to the largest id in use. */
  ghost predicate Names(r: Range, ids: set<nat>, n: nat) {
    && r.start <= n
    && (if r.stop != 0 then n <= r.stop else UpToLargest(ids, n))
  }

  ghost predicate UpToLargest(ids: set<nat>, n: nat) {
    n == 0 || exists id :: id in ids && n <= id
  }

  lemma NamesCovered(r: Range, keys: set<Key>, mailbox: string, n: nat)
    ensures Names(r, IdsIn(keys, mailbox), n) <==> Covers(r, NextId(keys, mailbox), n)
  {
    var next := NextId(keys, mailbox);
    assert next > 1 ==> next - 1 in IdsIn(keys, mailbox);
  }

  /** A UID set stands for every number that one of its ranges names, with or without a message. */
  lemma UidsResolve(keys: set<Key>, mailbox: string, ranges: seq<Range>)
    ensures var r, ids := Resolve(true, keys, mailbox, ranges), IdsIn(keys, mailbox);
      r.Some? && forall n: nat :: n in r.value <==> exists k :: 0 <= k < |ranges| && Names(ranges[k], ids, n)
  {
    hide Names, Covers, Numbers;
    UidsAreNumbers(keys, mailbox, ranges);
    forall n: nat
      ensures n in Numbers(ranges, NextId(keys, mailbox)) <==>
        exists k :: 0 <= k < |ranges| && Names(ranges[k], IdsIn(keys, mailbox), n)
    {
      NumbersCovered(ranges, NextId(keys, mailbox), n);
      AnyNames(keys, mailbox, ranges, n);
    }
  }

  lemma AnyNames(keys: set<Key>, mailbox: string, ranges: seq<Range>, n: nat)
    ensures (exists k :: 0 <= k < |ranges| && Names(ranges[k], IdsIn(keys, mailbox), n))
      <==> (exists k :: 0 <= k < |ranges| && Covers(ranges[k], NextId(keys, mailbox), n))
  {
    hide Names, Covers;
    forall k | 0 <= k < |ranges|
      ensures Names(ranges[k], IdsIn(keys, mailbox), n) <==> Covers(ranges[k], NextId(keys, mailbox), n)
    {
      NamesCovered(ranges[k], keys, mailbox, n);
    }
  }

  lemma CoveredResolve(keys: set<Key>, mailbox: string, ranges: seq<Range>)
    ensures var ids, next, r := IdsIn(keys, mailbox), NextId(keys, mailbox), Resolve(false, keys, mailbox, ranges);
      && (r.Some? <==> forall k, n: nat :: 0 <= k < |ranges| && Covers(ranges[k], next, n) ==> 1 <= n <= |ids|)
      && (r.Some? ==> forall id :: id in r.value <==>
            id in ids && exists k :: 0 <= k < |ranges| && Covers(ranges[k], next, SeqOf(ids, id)))
  {
    hide Numbers, LookupAll, IdForSeq, SeqOf, Covers;
    var ids, next, r := IdsIn(keys, mailbox), NextId(keys, mailbox), Resolve(false, keys, mailbox, ranges);
    var numbers := Numbers(ranges, next);
    LookupPointwise(false, ids, numbers);
    SeqAndIdAreInverse(ids);
    forall n: nat ensures n in numbers <==> exists k :: 0 <= k < |ranges| && Covers(ranges[k], next, n) {
      NumbersCovered(ranges, next, n);
    }
    assert forall i :: 0 <= i < |numbers| ==> (Lookup(false, ids, numbers[i]).Some? <==> 1 <= numbers[i] <= |ids|);
    assert r.Some? <==> forall n :: n in numbers ==> 1 <= n <= |ids| by {
      if !r.Some? {
        var i :| 0 <= i < |numbers| && !(1 <= numbers[i] <= |ids|);
        assert numbers[i] in numbers;
      }
    }
    if !r.Some? {
      var n :| n in numbers && !(1 <= n <= |ids|);
      var k :| 0 <= k < |ranges| && Covers(ranges[k], next, n);
    }
    if r.Some? {
      forall k, n: nat | 0 <= k < |ranges| && Covers(ranges[k], next, n) ensures 1 <= n <= |ids| {
        assert n in numbers;
      }
      forall id ensures id in r.value <==> id in ids && SeqOf(ids, id) in numbers {
        if id in r.value {
          var i :| 0 <= i < |r.value| && r.value[i] == id;
          assert IdForSeq(ids, numbers[i]) == Some(id);
        }
        if id in ids && SeqOf(ids, id) in numbers {
          var i :| 0 <= i < |numbers| && numbers[i] == SeqOf(ids, id);
          assert r.value[i] == id;
        }
      }
    }
  }

  lemma UidsAreNumbers(keys: set<Key>, mailbox: string, ranges: seq<Range>)
    ensures Resolve(true, keys, mailbox, ranges) == Some(Numbers(ranges, NextId(keys, mailbox)))
  {
    var numbers := Numbers(ranges, NextId(keys, mailbox));
    var ids := IdsIn(keys, mailbox);
    LookupPointwise(true, ids, numbers);
    assert LookupAll(true, ids, numbers).value == numbers;
  }

  /** A set of sequence numbers resolves exactly when every number its ranges name has a message, and then to exactly
      the messages that carry those numbers. */
  lemma SequenceNumbersResolve(keys: set<Key>, mailbox: string, ranges: seq<Range>)
    ensures var ids, r := IdsIn(keys, mailbox), Resolve(false, keys, mailbox, ranges);
      && (r.Some? <==> forall k, n: nat :: 0 <= k < |ranges| && Names(ranges[k], ids, n) ==> 1 <= n <= |ids|)
      && (r.Some? ==> forall id ::
            id in r.value <==> id in ids && exists k :: 0 <= k < |ranges| && Names(ranges[k], ids, SeqOf(ids, id)))
  {
    hide Numbers, LookupAll, IdForSeq, SeqOf, Covers, Names;
    var ids, r := IdsIn(keys, mailbox), Resolve(false, keys, mailbox, ranges);
    CoveredResolve(keys, mailbox, ranges);
    forall k, n: nat | 0 <= k < |ranges|
      ensures Names(ranges[k], ids, n) <==> Covers(ranges[k], NextId(keys, mailbox), n)
    {
      NamesCovered(ranges[k], keys, mailbox, n);
    }
    if r.Some? {
      forall id ensures id in r.value <==>
        id in ids && exists k :: 0 <= k < |ranges| && Names(ranges[k], ids, SeqOf(ids, id))
      {
        AnyNames(keys, mailbox, ranges, SeqOf(ids, id));
      }
    }
  }

  /** The number a client used for an id: its own, or its rank. */
  ghost function NumberOf(uid: bool, ids: set<nat>, id: nat): nat {
    if uid then id else SeqOf(ids, id)
  }

  /** Position i comes before position j: from an earlier range, or from the same range by a smaller number. */
  ghost predicate Before(origin: seq<nat>, numbers: seq<nat>, i: nat, j: nat)
    requires |origin| == |numbers| && i < |origin| && j < |origin|
  {
    origin[i] < origin[j] || (origin[i] == origin[j] && numbers[i] < numbers[j])
  }

  lemma {:induction false} NumbersInOrder(ranges: seq<Range>, next: nat) returns (origin: seq<nat>)
    ensures var numbers := Numbers(ranges, next);
      && |origin| == |numbers|
      && (forall i :: 0 <= i < |origin| ==> origin[i] < |ranges| && Covers(ranges[origin[i]], next, numbers[i]))
      && (forall i, j :: 0 <= i < j < |origin| ==> Before(origin, numbers, i, j))
      && (forall k, n: nat :: 0 <= k < |ranges| && Covers(ranges[k], next, n) ==> TakenFrom(origin, numbers, k, n))
  {
    if ranges == [] {
      origin := [];
    } else {
      var last := |ranges| - 1;
      var before := NumbersInOrder(ranges[..last], next);
      var numbers, earlier := Numbers(ranges, next), Numbers(ranges[..last], next);
      var span := Span(ranges[last].start, Stop(ranges[last], next));
      origin := before + seq(|span|, _ => last);
      forall k, n: nat | 0 <= k < |ranges| && Covers(ranges[k], next, n) ensures TakenFrom(origin, numbers, k, n) {
        if k < last {
          assert Covers(ranges[..last][k], next, n);
          assert TakenFrom(before, earlier, k, n);
          var i :| 0 <= i < |before| && before[i] == k && earlier[i] == n;
          assert origin[i] == k && numbers[i] == n;
        } else {
          var i := |before| + n - ranges[last].start;
          assert origin[i] == k && numbers[i] == n;
        }
      }
      forall i, j | 0 <= i < j < |origin| ensures Before(origin, numbers, i, j) {
        assert j < |before| ==> Before(before, earlier, i, j);
      }
    }
  }

  ghost predicate TakenFrom(origin: seq<nat>, numbers: seq<nat>, k: nat, n: nat)
    requires |origin| == |numbers|
  {
    exists i :: 0 <= i < |origin| && origin[i] == k && numbers[i] == n
  }

  /** A set resolves range by range, in ascending order within each, and takes each number once from every range that
      names it: so it is determined, repetitions included. */
  lemma ResolvedInOrder(uid: bool, keys: set<Key>, mailbox: string, ranges: seq<Range>)
    returns (origin: seq<nat>, numbers: seq<nat>)
    requires Resolve(uid, keys, mailbox, ranges).Some?
    ensures var ids, r := IdsIn(keys, mailbox), Resolve(uid, keys, mailbox, ranges).value;
      && |origin| == |numbers| == |r|
      && (forall i :: 0 <= i < |r| ==> numbers[i] == NumberOf(uid, ids, r[i]))
      && (forall i :: 0 <= i < |r| ==> origin[i] < |ranges| && Names(ranges[origin[i]], ids, numbers[i]))
      && (forall i, j :: 0 <= i < j < |r| ==> Before(origin, numbers, i, j))
      && (forall k, n: nat :: 0 <= k < |ranges| && Names(ranges[k], ids, n) ==> TakenFrom(origin, numbers, k, n))
  {
    hide Numbers, LookupAll, IdForSeq, SeqOf, Covers, Names, Before, TakenFrom;
    var next, ids := NextId(keys, mailbox), IdsIn(keys, mailbox);
    numbers := Numbers(ranges, next);
    origin := NumbersInOrder(ranges, next);
    LookupPointwise(uid, ids, numbers);
    SeqAndIdAreInverse(ids);
    forall k, n: nat | 0 <= k < |ranges| ensures Names(ranges[k], ids, n) <==> Covers(ranges[k], next, n) {
      NamesCovered(ranges[k], keys, mailbox, n);
    }
    var r := Resolve(uid, keys, mailbox, ranges).value;
    forall i | 0 <= i < |r| ensures numbers[i] == NumberOf(uid, ids, r[i]) {
      assert Some(r[i]) == Lookup(uid, ids, numbers[i]);
    }
  }

  /** What the code does with a lone `*`, which reaches it as a range from 0: as a UID it selects everything from 0 on,
      and as a sequence number it never resolves. */
  lemma LoneStar(keys: set<Key>, mailbox: string)
    ensures var r, ids := Resolve(true, keys, mailbox, [Range(0, 0)]), IdsIn(keys, mailbox);
      r.Some? && forall n: nat :: n in r.value <==> UpToLargest(ids, n)
    ensures Resolve(false, keys, mailbox, [Range(0, 0)]).None?
  {
    var ids, ranges := IdsIn(keys, mailbox), [Range(0, 0)];
    UidsResolve(keys, mailbox, ranges);
    SequenceNumbersResolve(keys, mailbox, ranges);
    assert Names(ranges[0], ids, 0);
    forall n: nat
      ensures (exists k :: 0 <= k < |ranges| && Names(ranges[k], ids, n)) <==> UpToLargest(ids, n)
    {
      assert (exists k :: 0 <= k < |ranges| && Names(ranges[k], ids, n)) <==> Names(ranges[0], ids, n);
    }
  }

  /** Different sequence numbers resolve to different messages, so a move of them is exact. */
  lemma DifferentMessages(keys: set<Key>, mailbox: string, ranges: seq<Range>, i: nat, j: nat)
    requires Resolve(false, keys, mailbox, ranges).Some?
    requires i < |Numbers(ranges, NextId(keys, mailbox))| && j < |Numbers(ranges, NextId(keys, mailbox))|
    ensures var numbers, ids := Numbers(ranges, NextId(keys, mailbox)), Resolve(false, keys, mailbox, ranges).value;
      && |ids| == |numbers|
      && Key(mailbox, ids[i]) in keys
      && (ids[i] == ids[j] <==> numbers[i] == numbers[j])
  {
    hide Numbers, LookupAll, IdForSeq, SeqOf;
    var numbers, live := Numbers(ranges, NextId(keys, mailbox)), IdsIn(keys, mailbox);
    LookupPointwise(false, live, numbers);
    SeqAndIdAreInverse(live);
    assert Lookup(false, live, numbers[i]) == IdForSeq(live, numbers[i]);
    assert Lookup(false, live, numbers[j]) == IdForSeq(live, numbers[j]);
  }

  /** `n:*` on sequence numbers takes its end from the ids, so it resolves exactly when no id is missing. */
  lemma StarNeedsNoGaps(keys: set<Key>, mailbox: string, start: nat)
    requires start >= 1
    ensures var ids, next := IdsIn(keys, mailbox), NextId(keys, mailbox);
      Resolve(false, keys, mailbox, [Range(start, 0)]).Some? <==> start >= next || next - 1 <= |ids|
  {
    var ids, next := IdsIn(keys, mailbox), NextId(keys, mailbox);
    var ranges := [Range(start, 0)];
    CoveredResolve(keys, mailbox, ranges);
    if start < next {
      assert Covers(ranges[0], next, next - 1);
    }
    forall k, n: nat | 0 <= k < |ranges| && Covers(ranges[k], next, n) ensures start <= n < next {
      assert k == 0;
    }
  }

  // ----- Copying -----

  /** When one message is copied, and how its two tasks fare. */
  datatype Attempt = Attempt(now: int, create: Write, flags: Write)

  datatype Copied = Copied(view: View, ok: bool)

  /** A skipped create passes for a copy with id 0. */
  function CopyOne(v: View, k: Key, destination: string, a: Attempt): Copied {
    if k !in v.mail || a.create.Fails? || (a.create.Succeeds? && destination !in v.mailboxes) then Copied(v, false)
    else
      var put := if a.create.Skipped? then v else Put(v, destination, Message(v.mail[k].content, a.now, NO_FLAGS));
      var to := if a.create.Skipped? then Key(destination, 0) else Fresh(v, destination);
      match a.flags
      case Fails => Copied(put, false)
      case Skipped => Copied(put, true)
      case Succeeds => Copied(Flag(put, to, v.mail[k].flags), true)
  }

  /** A copy whose create was skipped makes no message, and its flags go to message 0. */
  lemma SkippedCopy(v: View, k: Key, destination: string, a: Attempt)
    requires k in v.mail && a.create.Skipped?
    ensures var c := CopyOne(v, k, destination, a);
      && (c.ok <==> !a.flags.Fails?) && c.view.mail.Keys == v.mail.Keys
      && forall j :: j in v.mail ==>
           c.view.mail[j] == if a.flags.Succeeds? && j == Key(destination, 0) then v.mail[j].(flags := v.mail[k].flags)
                             else v.mail[j]
  {
  }

  /** CopyMessages after resolution: stops at the first failure. */
  function CopyAll(v: View, mailbox: string, ids: seq<nat>, destination: string, attempts: nat -> Attempt): Copied {
    if ids == [] then Copied(v, true)
    else
      var n := |ids| - 1;
      var c := CopyAll(v, mailbox, ids[..n], destination, attempts);
      if !c.ok then c else CopyOne(c.view, Key(mailbox, ids[n]), destination, attempts(n))
  }

  /** How many of the first n creates were carried out. */
  function Made(attempts: nat -> Attempt, n: nat): (made: nat)
    ensures made <= n
  {
    if n == 0 then 0 else Made(attempts, n - 1) + if attempts(n - 1).create.Succeeds? then 1 else 0
  }

  /** The attempt that made copy number c. */
  function MadeAt(attempts: nat -> Attempt, c: nat, n: nat): (j: nat)
    requires c < Made(attempts, n)
    ensures j < n && attempts(j).create.Succeeds? && Made(attempts, j) == c
  {
    if attempts(n - 1).create.Succeeds? && Made(attempts, n - 1) == c then n - 1 else MadeAt(attempts, c, n - 1)
  }

  /** An id without a message can still name a copy made just before, when a mailbox is copied into itself. */
  predicate NamesCopy(v: View, mailbox: string, id: nat, destination: string, attempts: nat -> Attempt, i: nat) {
    mailbox == destination && Fresh(v, destination).id <= id < Fresh(v, destination).id + Made(attempts, i)
  }

  function Copier(v: View, mailbox: string, id: nat, destination: string, attempts: nat -> Attempt, i: nat): (j: nat)
    requires NamesCopy(v, mailbox, id, destination, attempts, i)
    ensures j < i && attempts(j).create.Succeeds?
    ensures Key(mailbox, id) == Key(destination, Fresh(v, destination).id + Made(attempts, j))
  {
    MadeAt(attempts, id - Fresh(v, destination).id, i)
  }

  /** Which original the i-th id stands for, directly or through copies of it. */
  ghost function Source(v: View, mailbox: string, ids: seq<nat>, destination: string, attempts: nat -> Attempt,
                        i: nat): Option<nat>
    requires i < |ids|
    decreases i
  {
    if Key(mailbox, ids[i]) in v.mail then Some(ids[i])
    else if NamesCopy(v, mailbox, ids[i], destination, attempts, i) then
      Source(v, mailbox, ids, destination, attempts, Copier(v, mailbox, ids[i], destination, attempts, i))
    else None
  }

  /** The flags of what the i-th id stands for when its turn comes: a copy may have missed those of its original. */
  ghost function FlagsRead(v: View, mailbox: string, ids: seq<nat>, destination: string, attempts: nat -> Attempt,
                           i: nat): Flags
    requires i < |ids|
    decreases i
  {
    if Key(mailbox, ids[i]) in v.mail then v.mail[Key(mailbox, ids[i])].flags
    else if NamesCopy(v, mailbox, ids[i], destination, attempts, i) then
      var j := Copier(v, mailbox, ids[i], destination, attempts, i);
      if attempts(j).flags.Succeeds? then FlagsRead(v, mailbox, ids, destination, attempts, j) else NO_FLAGS
    else NO_FLAGS
  }

  ghost predicate CanCopy(v: View, mailbox: string, ids: seq<nat>, destination: string, attempts: nat -> Attempt,
                          i: nat)
    requires i < |ids|
  {
    && Source(v, mailbox, ids, destination, attempts, i).Some?
    && !attempts(i).create.Fails? && (attempts(i).create.Succeeds? ==> destination in v.mailboxes)
    && !attempts(i).flags.Fails?
  }

  /** What attempt i made: the content of the original, a new date, and the flags unless their write never began, under
      the next new id. */
  ghost predicate CopyAt(v: View, w: View, mailbox: string, ids: seq<nat>, destination: string,
                         attempts: nat -> Attempt, i: nat)
    requires i < |ids|
  {
    var j := Source(v, mailbox, ids, destination, attempts, i);
    var to := Key(destination, Fresh(v, destination).id + Made(attempts, i));
    && j.Some? && Key(mailbox, j.value) in v.mail && to in w.mail
    && w.mail[to] == Message(v.mail[Key(mailbox, j.value)].content, attempts(i).now,
                             if attempts(i).flags.Succeeds? then FlagsRead(v, mailbox, ids, destination, attempts, i)
                             else NO_FLAGS)
  }

  /** The copies of the first n attempts. */
  ghost predicate CopiesMade(v: View, w: View, mailbox: string, ids: seq<nat>, destination: string,
                             attempts: nat -> Attempt, n: nat)
    requires n <= |ids|
  {
    forall i :: 0 <= i < n && attempts(i).create.Succeeds? ==> CopyAt(v, w, mailbox, ids, destination, attempts, i)
  }

  /** What the i-th id finds in w is what its original had, or what came through to a copy of it. */
  ghost predicate Finds(v: View, w: View, mailbox: string, ids: seq<nat>, destination: string, attempts: nat -> Attempt,
                        i: nat)
    requires i < |ids|
  {
    var k, j := Key(mailbox, ids[i]), Source(v, mailbox, ids, destination, attempts, i);
    && (k in w.mail <==> j.Some?)
    && (j.Some? ==> Key(mailbox, j.value) in v.mail && w.mail[k].content == v.mail[Key(mailbox, j.value)].content
                    && w.mail[k].flags == FlagsRead(v, mailbox, ids, destination, attempts, i))
  }

  /** Nothing that was there has changed. */
  predicate Extends(v: View, w: View) {
    && w.mailboxes == v.mailboxes && w.queue == v.queue
    && forall k :: k in v.mail ==> k in w.mail && w.mail[k] == v.mail[k]
  }

  /** The new keys are the next n ids of the destination. */
  predicate AddsIds(v: View, w: View, destination: string, n: nat) {
    && Fresh(w, destination).id == Fresh(v, destination).id + n
    && forall k :: k in w.mail && k !in v.mail ==> k.mailbox == destination && Fresh(v, destination).id <= k.id
  }

  lemma SourceOfPrefix(v: View, mailbox: string, ids: seq<nat>, destination: string, attempts: nat -> Attempt, n: nat,
                       i: nat)
    requires i < n <= |ids|
    ensures Source(v, mailbox, ids[..n], destination, attempts, i) == Source(v, mailbox, ids, destination, attempts, i)
    ensures FlagsRead(v, mailbox, ids[..n], destination, attempts, i)
         == FlagsRead(v, mailbox, ids, destination, attempts, i)
    decreases i
  {
    if NamesCopy(v, mailbox, ids[i], destination, attempts, i) {
      SourceOfPrefix(v, mailbox, ids, destination, attempts, n, Copier(v, mailbox, ids[i], destination, attempts, i));
    }
  }

  lemma FreshAfterPut(v: View, destination: string, msg: Message)
    ensures Fresh(Put(v, destination, msg), destination).id == Fresh(v, destination).id + 1
  {
    var k, w := Fresh(v, destination), Put(v, destination, msg);
    assert w.mail.Keys == v.mail.Keys + {k};
    assert Key(destination, k.id) in w.mail.Keys;
  }

  lemma CopyOneAdds(v: View, k: Key, destination: string, a: Attempt)
    requires Key(destination, 0) !in v.mail
    ensures var c, to := CopyOne(v, k, destination, a), Fresh(v, destination);
      && Extends(v, c.view)
      && (c.ok <==>
            && k in v.mail && !a.create.Fails? && (a.create.Succeeds? ==> destination in v.mailboxes)
            && !a.flags.Fails?)
      && (c.ok && a.create.Skipped? ==> c.view == v)
      && (c.ok && a.create.Succeeds? ==>
            && AddsIds(v, c.view, destination, 1) && to in c.view.mail
            && c.view.mail[to] == Message(v.mail[k].content, a.now,
                                          if a.flags.Succeeds? then v.mail[k].flags else NO_FLAGS))
  {
    var c := CopyOne(v, k, destination, a);
    if c.ok && a.create.Succeeds? {
      var put := Put(v, destination, Message(v.mail[k].content, a.now, NO_FLAGS));
      FreshAfterPut(v, destination, Message(v.mail[k].content, a.now, NO_FLAGS));
      assert c.view.mail.Keys == put.mail.Keys;
    }
  }

  /** A failed copy ends the list. */
  lemma {:induction false} CopyStops(v: View, mailbox: string, ids: seq<nat>, destination: string,
                                     attempts: nat -> Attempt, n: nat)
    requires n <= |ids| && !CopyAll(v, mailbox, ids[..n], destination, attempts).ok
    ensures CopyAll(v, mailbox, ids, destination, attempts) == CopyAll(v, mailbox, ids[..n], destination, attempts)
  {
    hide CopyOne;
    if n == |ids| {
      assert ids[..n] == ids;
    } else {
      var last := |ids| - 1;
      assert ids[..last][..n] == ids[..n];
      CopyStops(v, mailbox, ids[..last], destination, attempts, n);
    }
  }

  /** Copying is exact, whichever tasks fail or never begin: it succeeds when every id has a source and nothing fails,
      and then adds, in order and under consecutive new ids, one message per create that was carried out. The originals
      stay as they are even when it stops half way. */
  lemma {:induction false} CopyExact(v: View, mailbox: string, ids: seq<nat>, destination: string,
                                     attempts: nat -> Attempt)
    requires Key(destination, 0) !in v.mail
    ensures var c := CopyAll(v, mailbox, ids, destination, attempts);
      && Extends(v, c.view)
      && (c.ok <==> forall i :: 0 <= i < |ids| ==> CanCopy(v, mailbox, ids, destination, attempts, i))
      && (c.ok ==> AddsIds(v, c.view, destination, Made(attempts, |ids|)))
      && (c.ok ==> CopiesMade(v, c.view, mailbox, ids, destination, attempts, |ids|))
  {
    hide Source, FlagsRead, CopyOne, CanCopy, CopyAt, Extends, AddsIds, Made;
    if ids == [] {
      NothingCopied(v, destination, attempts);
    } else {
      var n := |ids| - 1;
      var before := ids[..n];
      CopyExact(v, mailbox, before, destination, attempts);
      forall i | 0 <= i < n
        ensures CanCopy(v, mailbox, before, destination, attempts, i) <==>
          CanCopy(v, mailbox, ids, destination, attempts, i)
      {
        CanCopyPrefix(v, mailbox, before, ids, destination, attempts, i);
      }
      var c := CopyAll(v, mailbox, before, destination, attempts);
      if c.ok {
        CopyLast(v, c.view, mailbox, before, ids, destination, attempts);
      }
    }
  }

  lemma NothingCopied(v: View, destination: string, attempts: nat -> Attempt)
    ensures Extends(v, v) && AddsIds(v, v, destination, Made(attempts, 0))
  {
  }

  lemma CanCopyPrefix(v: View, mailbox: string, before: seq<nat>, ids: seq<nat>, destination: string,
                      attempts: nat -> Attempt, i: nat)
    requires |before| <= |ids| && before == ids[..|before|] && i < |before|
    ensures CanCopy(v, mailbox, before, destination, attempts, i) <==>
      CanCopy(v, mailbox, ids, destination, attempts, i)
  {
    hide Source, FlagsRead;
    SourceOfPrefix(v, mailbox, ids, destination, attempts, |before|, i);
  }

  /** The last id of a list is found among the originals or among the copies already made. */
  lemma LastSource(v: View, w: View, mailbox: string, ids: seq<nat>, destination: string, attempts: nat -> Attempt)
    requires ids != [] && Extends(v, w) && AddsIds(v, w, destination, Made(attempts, |ids| - 1))
    requires CopiesMade(v, w, mailbox, ids, destination, attempts, |ids| - 1)
    ensures Finds(v, w, mailbox, ids, destination, attempts, |ids| - 1)
  {
    hide Made, Copier;
    var n := |ids| - 1;
    var k := Key(mailbox, ids[n]);
    if k !in v.mail {
      if k in w.mail {
        assert Key(destination, k.id) in w.mail.Keys;
        assert NamesCopy(v, mailbox, ids[n], destination, attempts, n);
      }
      if NamesCopy(v, mailbox, ids[n], destination, attempts, n) {
        assert CopyAt(v, w, mailbox, ids, destination, attempts, Copier(v, mailbox, ids[n], destination, attempts, n));
      }
    }
  }

  lemma ExtendsTwice(v: View, w: View, x: View)
    requires Extends(v, w) && Extends(w, x)
    ensures Extends(v, x)
  {
  }

  lemma AddsOneMore(v: View, w: View, x: View, destination: string, n: nat)
    requires Extends(v, w) && AddsIds(v, w, destination, n) && AddsIds(w, x, destination, 1)
    ensures AddsIds(v, x, destination, n + 1)
  {
  }

  lemma CopyStays(v: View, w: View, x: View, mailbox: string, ids: seq<nat>, destination: string,
                  attempts: nat -> Attempt, i: nat)
    requires i < |ids| && Extends(w, x) && CopyAt(v, w, mailbox, ids, destination, attempts, i)
    ensures CopyAt(v, x, mailbox, ids, destination, attempts, i)
  {
    hide Source, FlagsRead;
  }

  lemma MadeNext(attempts: nat -> Attempt, n: nat)
    ensures Made(attempts, n + 1) == Made(attempts, n) + if attempts(n).create.Succeeds? then 1 else 0
  {
  }

  /** No copy takes id 0. */
  lemma NoZero(v: View, w: View, destination: string, n: nat)
    requires Key(destination, 0) !in v.mail && AddsIds(v, w, destination, n)
    ensures Key(destination, 0) !in w.mail
  {
  }

  lemma CopyLast(v: View, w: View, mailbox: string, before: seq<nat>, ids: seq<nat>, destination: string,
                 attempts: nat -> Attempt)
    requires Key(destination, 0) !in v.mail
    requires ids != [] && Extends(v, w) && AddsIds(v, w, destination, Made(attempts, |ids| - 1))
    requires before == ids[..|ids| - 1] && CopiesMade(v, w, mailbox, before, destination, attempts, |ids| - 1)
    ensures var n := |ids| - 1;
      var c := CopyOne(w, Key(mailbox, ids[n]), destination, attempts(n));
      && Extends(v, c.view)
      && (c.ok <==> CanCopy(v, mailbox, ids, destination, attempts, n))
      && (c.ok ==> AddsIds(v, c.view, destination, Made(attempts, n + 1)))
      && (c.ok ==> CopiesMade(v, c.view, mailbox, ids, destination, attempts, n + 1))
  {
    hide CopyOne, CanCopy, Finds, CopiesMade, Extends, AddsIds, CopyAt, Made, Fresh;
    var n := |ids| - 1;
    var k, a := Key(mailbox, ids[n]), attempts(n);
    var c := CopyOne(w, k, destination, a);
    CopiesInPrefix(v, w, mailbox, before, ids, destination, attempts);
    LastSource(v, w, mailbox, ids, destination, attempts);
    NoZero(v, w, destination, Made(attempts, n));
    CopyOneAdds(w, k, destination, a);
    ExtendsTwice(v, w, c.view);
    LastAccepted(v, w, mailbox, ids, destination, attempts);
    MadeNext(attempts, n);
    CopiesStay(v, w, c.view, mailbox, ids, destination, attempts, n);
    if c.ok {
      if a.create.Succeeds? {
        AddsOneMore(v, w, c.view, destination, Made(attempts, n));
        NextCopy(v, w, destination, Made(attempts, n));
        NewCopy(v, w, mailbox, ids, destination, attempts);
      }
      OneMoreCopy(v, c.view, mailbox, ids, destination, attempts, n);
    }
  }

  lemma OneMoreCopy(v: View, w: View, mailbox: string, ids: seq<nat>, destination: string, attempts: nat -> Attempt,
                    n: nat)
    requires n < |ids| && CopiesMade(v, w, mailbox, ids, destination, attempts, n)
    requires attempts(n).create.Succeeds? ==> CopyAt(v, w, mailbox, ids, destination, attempts, n)
    ensures CopiesMade(v, w, mailbox, ids, destination, attempts, n + 1)
  {
    hide CopyAt;
  }

  lemma CopiesStay(v: View, w: View, x: View, mailbox: string, ids: seq<nat>, destination: string,
                   attempts: nat -> Attempt, n: nat)
    requires n <= |ids| && Extends(w, x) && CopiesMade(v, w, mailbox, ids, destination, attempts, n)
    ensures CopiesMade(v, x, mailbox, ids, destination, attempts, n)
  {
    hide CopyAt, Extends;
    forall i | 0 <= i < n && attempts(i).create.Succeeds?
      ensures CopyAt(v, x, mailbox, ids, destination, attempts, i)
    {
      CopyStays(v, w, x, mailbox, ids, destination, attempts, i);
    }
  }

  lemma LastAccepted(v: View, w: View, mailbox: string, ids: seq<nat>, destination: string, attempts: nat -> Attempt)
    requires ids != [] && Extends(v, w) && Key(destination, 0) !in w.mail
    requires Finds(v, w, mailbox, ids, destination, attempts, |ids| - 1)
    ensures CopyOne(w, Key(mailbox, ids[|ids| - 1]), destination, attempts(|ids| - 1)).ok <==>
      CanCopy(v, mailbox, ids, destination, attempts, |ids| - 1)
  {
    assert w.mailboxes == v.mailboxes;
    hide Source, FlagsRead, CopyOne, Extends;
    CopyOneAdds(w, Key(mailbox, ids[|ids| - 1]), destination, attempts(|ids| - 1));
  }

  lemma NextCopy(v: View, w: View, destination: string, n: nat)
    requires AddsIds(v, w, destination, n)
    ensures Fresh(w, destination) == Key(destination, Fresh(v, destination).id + n)
  {
  }

  lemma CopiesInPrefix(v: View, w: View, mailbox: string, before: seq<nat>, ids: seq<nat>, destination: string,
                       attempts: nat -> Attempt)
    requires ids != [] && before == ids[..|ids| - 1]
    requires CopiesMade(v, w, mailbox, before, destination, attempts, |ids| - 1)
    ensures CopiesMade(v, w, mailbox, ids, destination, attempts, |ids| - 1)
  {
    hide CopyAt;
    forall i | 0 <= i < |ids| - 1 && attempts(i).create.Succeeds?
      ensures CopyAt(v, w, mailbox, ids, destination, attempts, i)
    {
      CopyInPrefix(v, w, mailbox, before, ids, destination, attempts, i);
    }
  }

  lemma NewCopy(v: View, w: View, mailbox: string, ids: seq<nat>, destination: string, attempts: nat -> Attempt)
    requires ids != [] && Key(destination, 0) !in w.mail && attempts(|ids| - 1).create.Succeeds?
    requires Fresh(w, destination) == Key(destination, Fresh(v, destination).id + Made(attempts, |ids| - 1))
    requires CopyOne(w, Key(mailbox, ids[|ids| - 1]), destination, attempts(|ids| - 1)).ok
    requires Finds(v, w, mailbox, ids, destination, attempts, |ids| - 1)
    ensures var n := |ids| - 1;
      CopyAt(v, CopyOne(w, Key(mailbox, ids[n]), destination, attempts(n)).view, mailbox, ids, destination, attempts, n)
  {
    hide Source, FlagsRead, CopyOne, Fresh, Made, AddsIds, Extends;
    CopyOneAdds(w, Key(mailbox, ids[|ids| - 1]), destination, attempts(|ids| - 1));
  }

  lemma CopyInPrefix(v: View, w: View, mailbox: string, before: seq<nat>, ids: seq<nat>, destination: string,
                     attempts: nat -> Attempt, i: nat)
    requires |before| <= |ids| && before == ids[..|before|] && i < |before|
    requires CopyAt(v, w, mailbox, before, destination, attempts, i)
    ensures CopyAt(v, w, mailbox, ids, destination, attempts, i)
  {
    hide Source, FlagsRead;
    SourceOfPrefix(v, mailbox, ids, destination, attempts, |before|, i);
  }

  // ----- When a reported success is one -----

  /** Every id has its own copy, in order, with the content and the flags of its original. */
  ghost predicate AllCopied(v: View, w: View, mailbox: string, ids: seq<nat>, destination: string,
                            attempts: nat -> Attempt) {
    && AddsIds(v, w, destination, |ids|)
    && forall i :: 0 <= i < |ids| ==> WholeCopyAt(v, w, mailbox, ids, destination, attempts, i)
  }

  ghost predicate WholeCopyAt(v: View, w: View, mailbox: string, ids: seq<nat>, destination: string,
                              attempts: nat -> Attempt, i: nat)
    requires i < |ids|
  {
    var j, to := Source(v, mailbox, ids, destination, attempts, i), Key(destination, Fresh(v, destination).id + i);
    && j.Some? && Key(mailbox, j.value) in v.mail && to in w.mail
    && w.mail[to] == v.mail[Key(mailbox, j.value)].(date := attempts(i).now)
  }

  /** The create began, and so did the write of the flags unless there were none to write. */
  ghost predicate Began(v: View, mailbox: string, ids: seq<nat>, destination: string, attempts: nat -> Attempt, i: nat)
    requires i < |ids|
  {
    && attempts(i).create.Succeeds?
    && var j := Source(v, mailbox, ids, destination, attempts, i);
       || attempts(i).flags.Succeeds?
       || (j.Some? && Key(mailbox, j.value) in v.mail && v.mail[Key(mailbox, j.value)].flags == NO_FLAGS)
  }

  /** A copy that reports success has copied everything exactly when every create began, and every write of flags that
      were not all clear. */
  lemma CopyReported(v: View, mailbox: string, ids: seq<nat>, destination: string, attempts: nat -> Attempt)
    requires Key(destination, 0) !in v.mail && CopyAll(v, mailbox, ids, destination, attempts).ok
    ensures AllCopied(v, CopyAll(v, mailbox, ids, destination, attempts).view, mailbox, ids, destination, attempts)
      <==> forall i :: 0 <= i < |ids| ==> Began(v, mailbox, ids, destination, attempts, i)
  {
    hide Source, FlagsRead, Made, AddsIds, CopyAt, Began, WholeCopyAt;
    var w := CopyAll(v, mailbox, ids, destination, attempts).view;
    CopyExact(v, mailbox, ids, destination, attempts);
    if AllCopied(v, w, mailbox, ids, destination, attempts) {
      SameCount(v, w, destination, |ids|, Made(attempts, |ids|));
      forall i | 0 <= i < |ids| ensures Began(v, mailbox, ids, destination, attempts, i) {
        AllMade(attempts, |ids|, i);
        assert WholeCopyAt(v, w, mailbox, ids, destination, attempts, i);
        WholeBegan(v, w, mailbox, ids, destination, attempts, i);
      }
    }
    if forall i :: 0 <= i < |ids| ==> Began(v, mailbox, ids, destination, attempts, i) {
      MadeAll(v, mailbox, ids, destination, attempts, |ids|);
      forall i | 0 <= i < |ids| ensures WholeCopyAt(v, w, mailbox, ids, destination, attempts, i) {
        AllMade(attempts, |ids|, i);
        FlagsKept(v, mailbox, ids, destination, attempts, i);
        BeganWhole(v, w, mailbox, ids, destination, attempts, i);
      }
    }
  }

  lemma SameCount(v: View, w: View, destination: string, m: nat, n: nat)
    requires AddsIds(v, w, destination, m) && AddsIds(v, w, destination, n)
    ensures m == n
  {
  }

  /** When as many copies were made as there are ids, every create was carried out. */
  lemma {:induction false} AllMade(attempts: nat -> Attempt, n: nat, i: nat)
    requires Made(attempts, n) == n && i < n
    ensures attempts(i).create.Succeeds? && Made(attempts, i) == i
  {
    if i < n - 1 {
      AllMade(attempts, n - 1, i);
    }
  }

  lemma {:induction false} MadeAll(v: View, mailbox: string, ids: seq<nat>, destination: string,
                                   attempts: nat -> Attempt, n: nat)
    requires n <= |ids| && forall i :: 0 <= i < |ids| ==> Began(v, mailbox, ids, destination, attempts, i)
    ensures Made(attempts, n) == n
  {
    hide Source;
    if n > 0 {
      MadeAll(v, mailbox, ids, destination, attempts, n - 1);
      assert Began(v, mailbox, ids, destination, attempts, n - 1);
    }
  }

  /** Flags get through any chain of copies that began. */
  lemma {:induction false} FlagsKept(v: View, mailbox: string, ids: seq<nat>, destination: string,
                                     attempts: nat -> Attempt, i: nat)
    requires i < |ids| && forall j :: 0 <= j < |ids| ==> Began(v, mailbox, ids, destination, attempts, j)
    ensures var j := Source(v, mailbox, ids, destination, attempts, i);
      j.Some? && Key(mailbox, j.value) in v.mail ==>
        FlagsRead(v, mailbox, ids, destination, attempts, i) == v.mail[Key(mailbox, j.value)].flags
    decreases i
  {
    hide Copier, Began;
    if Key(mailbox, ids[i]) !in v.mail && NamesCopy(v, mailbox, ids[i], destination, attempts, i) {
      var j := Copier(v, mailbox, ids[i], destination, attempts, i);
      FlagsKept(v, mailbox, ids, destination, attempts, j);
      if !attempts(j).flags.Succeeds? {
        BeganFlags(v, mailbox, ids, destination, attempts, j);
      }
    }
  }

  lemma BeganFlags(v: View, mailbox: string, ids: seq<nat>, destination: string, attempts: nat -> Attempt, i: nat)
    requires i < |ids| && Began(v, mailbox, ids, destination, attempts, i) && !attempts(i).flags.Succeeds?
    ensures var j := Source(v, mailbox, ids, destination, attempts, i);
      j.Some? && Key(mailbox, j.value) in v.mail && v.mail[Key(mailbox, j.value)].flags == NO_FLAGS
  {
    hide Source;
  }

  lemma WholeBegan(v: View, w: View, mailbox: string, ids: seq<nat>, destination: string, attempts: nat -> Attempt,
                   i: nat)
    requires i < |ids| && WholeCopyAt(v, w, mailbox, ids, destination, attempts, i)
    requires CopyAt(v, w, mailbox, ids, destination, attempts, i)
    requires attempts(i).create.Succeeds? && Made(attempts, i) == i
    ensures Began(v, mailbox, ids, destination, attempts, i)
  {
    hide Source, FlagsRead, Made;
  }

  lemma BeganWhole(v: View, w: View, mailbox: string, ids: seq<nat>, destination: string, attempts: nat -> Attempt,
                   i: nat)
    requires i < |ids| && Began(v, mailbox, ids, destination, attempts, i) && Made(attempts, i) == i
    requires CopyAt(v, w, mailbox, ids, destination, attempts, i)
    requires var j := Source(v, mailbox, ids, destination, attempts, i);
      j.Some? && Key(mailbox, j.value) in v.mail ==>
        FlagsRead(v, mailbox, ids, destination, attempts, i) == v.mail[Key(mailbox, j.value)].flags
    ensures WholeCopyAt(v, w, mailbox, ids, destination, attempts, i)
  {
    hide Source, FlagsRead, Made;
  }

  // ----- Moving -----

  /** How the statements of the i-th move fail. */
  type MoveFault = nat -> MoveFaults

  /** MoveMessages after resolution, without a file store; stops at the first failure. */
  function MoveAll(s: Store, mailbox: string, ids: seq<nat>, destination: string, faults: MoveFault): Step<()> {
    if ids == [] then Step(s, Ok(()))
    else
      var n := |ids| - 1;
      var m := MoveAll(s, mailbox, ids[..n], destination, faults);
      if m.result.Err? then m
      else
        var r := Move(m.store, Key(mailbox, ids[n]), destination, false, faults(n));
        Step(r.store, if r.result.Ok? then Ok(()) else Err(r.result.error))
  }

  /** A failed move ends the list. */
  lemma {:induction false} MoveStops(s: Store, mailbox: string, ids: seq<nat>, destination: string, faults: MoveFault,
                                     n: nat)
    requires n <= |ids| && MoveAll(s, mailbox, ids[..n], destination, faults).result.Err?
    ensures MoveAll(s, mailbox, ids, destination, faults) == MoveAll(s, mailbox, ids[..n], destination, faults)
  {
    hide Move;
    if n == |ids| {
      assert ids[..n] == ids;
    } else {
      var last := |ids| - 1;
      assert ids[..last][..n] == ids[..n];
      MoveStops(s, mailbox, ids[..last], destination, faults, n);
    }
  }

  /** All messages of a plain map, with multiplicity. */
  ghost function Bag(mail: map<Key, Message>): multiset<Message> {
    if mail == map[] then multiset{}
    else
      var k :| k in mail;
      multiset{mail[k]} + Bag(mail - {k})
  }

  lemma BagStep(mail: map<Key, Message>) returns (j: Key)
    requires mail != map[]
    ensures j in mail && Bag(mail) == multiset{mail[j]} + Bag(mail - {j})
  {
    j :| j in mail && Bag(mail) == multiset{mail[j]} + Bag(mail - {j});
  }

  lemma {:induction false} BagSplit(mail: map<Key, Message>, k: Key)
    requires k in mail
    ensures Bag(mail) == multiset{mail[k]} + Bag(mail - {k})
    decreases |mail|
  {
    hide Bag;
    var j := BagStep(mail);
    if j != k {
      assert |mail - {j}| < |mail| && |mail - {k}| < |mail| by {
        assert (mail - {j}).Keys == mail.Keys - {j} && (mail - {k}).Keys == mail.Keys - {k};
      }
      BagSplit(mail - {j}, k);
      BagSplit(mail - {k}, j);
      assert mail - {j} - {k} == mail - {k} - {j};
    }
  }

  /** Renaming one message's key leaves the bag alone. */
  lemma BagRenamed(mail: map<Key, Message>, k: Key, to: Key)
    requires k in mail && to !in mail
    ensures Bag(mail[to := mail[k]] - {k}) == Bag(mail)
  {
    hide Bag;
    var w := mail[to := mail[k]] - {k};
    BagSplit(mail, k);
    BagSplit(w, to);
    assert w - {to} == mail - {k};
  }

  lemma TransferConserves(v: View, k: Key, destination: string)
    requires k in v.mail
    ensures Bag(Transfer(v, k, destination).mail) == Bag(v.mail)
    ensures Bag(Put(v, destination, v.mail[k]).mail) == Bag(v.mail) + multiset{v.mail[k]}
  {
    hide Bag;
    var to := Fresh(v, destination);
    BagRenamed(v.mail, k, to);
    BagSplit(v.mail[to := v.mail[k]], to);
    assert v.mail[to := v.mail[k]] - {to} == v.mail;
  }

  predicate SameElsewhere(v: View, w: View, mailbox: string, destination: string) {
    && w.mailboxes == v.mailboxes
    && (forall k :: k in v.mail && k.mailbox != mailbox && k.mailbox != destination ==>
          k in w.mail && w.mail[k] == v.mail[k])
    && (forall k :: k in w.mail && k.mailbox != mailbox && k.mailbox != destination ==> k in v.mail)
  }

  /** Nothing lost or doubled, but for the message whose DELETE failed at the end: that one is in both mailboxes. */
  ghost predicate Conserves(v: View, w: View, mailbox: string, kept: bool) {
    if kept then exists k :: k in w.mail && k.mailbox == mailbox && Bag(w.mail) == Bag(v.mail) + multiset{w.mail[k]}
    else Bag(w.mail) == Bag(v.mail)
  }

  /** Whatever the list of ids, live or not, repeated or not, whichever statements fail and wherever it stops: a bulk
      move keeps the store well formed, loses no message and doubles none but the one whose DELETE failed, and touches
      only its two mailboxes. */
  lemma {:induction false} MoveConserves(s: Store, names: set<string>, mailbox: string, ids: seq<nat>,
                                         destination: string, faults: MoveFault)
    requires Valid(s) && Fits(s, names) && destination in names
    ensures var r := MoveAll(s, mailbox, ids, destination, faults);
      && Valid(r.store) && Fits(r.store, names)
      && Conserves(ViewOf(s), ViewOf(r.store), mailbox, r.result == Err(SourceKept))
      && SameElsewhere(ViewOf(s), ViewOf(r.store), mailbox, destination)
  {
    hide Valid, ViewOf, Move, Distinct, Bag;
    if ids != [] {
      var n := |ids| - 1;
      MoveConserves(s, names, mailbox, ids[..n], destination, faults);
      var m := MoveAll(s, mailbox, ids[..n], destination, faults);
      if m.result.Ok? {
        MoveOneConserves(m.store, names, Key(mailbox, ids[n]), destination, faults(n));
      }
    }
  }

  lemma MoveOneConserves(s: Store, names: set<string>, k: Key, destination: string, f: MoveFaults)
    requires Valid(s) && Fits(s, names) && destination in names
    ensures var r := Move(s, k, destination, false, f);
      && Valid(r.store) && Fits(r.store, names)
      && Conserves(ViewOf(s), ViewOf(r.store), k.mailbox, r.result == Err(SourceKept))
      && SameElsewhere(ViewOf(s), ViewOf(r.store), k.mailbox, destination)
  {
    hide Bag, Valid, Distinct, ViewOf, Move, MoveLosesFile, MovedView, Conserves, SameElsewhere;
    KeepsFile(s, k, destination, f);
    MoveRefines(s, names, k, destination, false, f);
    MoveMailboxes(s, k, destination, false, f);
    SameKeys(s);
    NothingConserves(ViewOf(s), k.mailbox, destination);
    if k in s.mails && !f.begin {
      MovedConserves(ViewOf(s), k, destination, Move(s, k, destination, false, f).result);
    }
  }

  lemma NothingConserves(v: View, mailbox: string, destination: string)
    ensures Conserves(v, v, mailbox, false) && SameElsewhere(v, v, mailbox, destination)
  {
  }

  lemma MovedConserves(v: View, k: Key, destination: string, r: Result<nat>)
    requires k in v.mail
    ensures Conserves(v, MovedView(v, k, destination, r), k.mailbox, r == Err(SourceKept))
    ensures SameElsewhere(v, MovedView(v, k, destination, r), k.mailbox, destination)
  {
    hide Bag, Transfer, Put;
    TransferConserves(v, k, destination);
    TransferElsewhere(v, k, destination);
    PutElsewhere(v, k, destination);
  }

  lemma KeepsFile(s: Store, k: Key, destination: string, f: MoveFaults)
    ensures !MoveLosesFile(s, k, destination, false, f)
  {
  }

  lemma SameKeys(s: Store)
    requires Valid(s)
    ensures ViewOf(s).mail.Keys == s.mails.Keys
  {
  }

  lemma TransferElsewhere(v: View, k: Key, destination: string)
    requires k in v.mail
    ensures SameElsewhere(v, Transfer(v, k, destination), k.mailbox, destination)
  {
  }

  lemma PutElsewhere(v: View, k: Key, destination: string)
    requires k in v.mail
    ensures SameElsewhere(v, Put(v, destination, v.mail[k]), k.mailbox, destination)
    ensures k in Put(v, destination, v.mail[k]).mail && Put(v, destination, v.mail[k]).mail[k] == v.mail[k]
  {
  }

  /** The move of a message that has not gone yet passes: it is carried out, or not even begun. */
  predicate MayMove(s: Store, k: Key, destination: string, f: MoveFaults, gone: bool) {
    f.begin || (!gone && Movable(s, k, destination, false) && !f.read && !f.insert && !f.delete)
  }

  /** It gets as far as its DELETE, and that fails. */
  predicate Doubles(s: Store, k: Key, destination: string, f: MoveFaults, gone: bool) {
    !f.begin && !gone && Movable(s, k, destination, false) && !f.read && !f.insert && f.delete
  }

  /** How many of the ids come before the first whose move is refused: one without a message, one already moved, or one
      whose statements fail. */
  function Accepted(s: Store, mailbox: string, ids: seq<nat>, destination: string, faults: MoveFault): (n: nat)
    ensures n <= |ids|
  {
    if ids == [] then 0
    else
      var n := |ids| - 1;
      var before := Accepted(s, mailbox, ids[..n], destination, faults);
      if before == n
         && MayMove(s, Key(mailbox, ids[n]), destination, faults(n), ids[n] in Begun(ids[..n], faults))
      then n + 1
      else before
  }

  /** The ids whose moves were begun. */
  function Begun(ids: seq<nat>, faults: MoveFault): seq<nat> {
    if ids == [] then []
    else
      var n := |ids| - 1;
      Begun(ids[..n], faults) + if faults(n).begin then [] else [ids[n]]
  }

  predicate IsMoved(k: Key, mailbox: string, ids: seq<nat>) {
    k.mailbox == mailbox && k.id in ids
  }

  /** Each row, content, date and flags included, under the next new id of the destination, in order; all other rows as
      they were. */
  ghost predicate RowsMoved(s: Store, t: Store, mailbox: string, ids: seq<nat>, destination: string) {
    && t.mailboxes == s.mailboxes && t.files == s.files
    && FreshKey(t, destination).id == FreshKey(s, destination).id + |ids|
    && (forall i :: 0 <= i < |ids| ==> RowAt(s, t, mailbox, ids, destination, i))
    && OthersKept(s, t, mailbox, ids, destination)
  }

  predicate OthersKept(s: Store, t: Store, mailbox: string, ids: seq<nat>, destination: string) {
    && (forall k :: k in s.mails && !IsMoved(k, mailbox, ids) ==> k in t.mails && t.mails[k] == s.mails[k])
    && (forall k :: k in t.mails && !IsNew(s, k) ==> k in s.mails && !IsMoved(k, mailbox, ids))
    && (forall k :: k in t.mails && IsNew(s, k) ==> IsIn(k, destination))
  }

  predicate IsIn(k: Key, mailbox: string) {
    k.mailbox == mailbox
  }

  predicate IsNew(s: Store, k: Key) {
    k.id >= FreshKey(s, k.mailbox).id
  }

  predicate RowAt(s: Store, t: Store, mailbox: string, ids: seq<nat>, destination: string, i: nat)
    requires i < |ids|
  {
    var k, to := Key(mailbox, ids[i]), Key(destination, FreshKey(s, destination).id + i);
    k in s.mails && to in t.mails && t.mails[to] == s.mails[k]
  }

  lemma MoveOneRow(s: Store, k: Key, destination: string, f: MoveFaults)
    requires Valid(s) && k in s.mails
    ensures var r, to := Move(s, k, destination, false, f), FreshKey(s, destination);
      && (r.result.Ok? <==> MayMove(s, k, destination, f, false))
      && (r.result == Err(SourceKept) <==> Doubles(s, k, destination, f, false))
      && r.store.mailboxes == s.mailboxes && r.store.files == s.files
      && r.store.mails == (if f.begin then s.mails
                           else if r.result.Ok? then s.mails[to := s.mails[k]] - {k}
                           else if r.result == Err(SourceKept) then s.mails[to := s.mails[k]] else s.mails)
      && (!f.begin && r.result.Ok? ==> FreshKey(r.store, destination).id == to.id + 1)
      && (f.begin ==> r.store == s)
  {
    hide RelPath;
    assert RowOk(s, k);
    var r := Move(s, k, destination, false, f);
    if !f.begin && r.result.Ok? {
      assert FreshKey(s, destination) in r.store.mails.Keys;
    }
  }

  lemma MoveNoRow(s: Store, k: Key, destination: string, f: MoveFaults)
    requires k !in s.mails
    ensures var r := Move(s, k, destination, false, f);
      r.store == s && r.result.Ok? == f.begin && r.result != Err(SourceKept)
  {
  }

  /** No id is one that this move itself gives to a message. */
  ghost predicate NoneNew(s: Store, mailbox: string, ids: seq<nat>, destination: string) {
    mailbox == destination ==> forall i :: 0 <= i < |ids| ==> ids[i] < FreshKey(s, destination).id
  }

  /** Whatever the list, with gaps and repetitions: a bulk move moves, exactly and in order, the messages before the
      first id that is refused, except the ones whose move was not begun; if that one fails at its DELETE, it has been
      inserted as well. */
  lemma {:induction false} MoveExact(s: Store, names: set<string>, mailbox: string, ids: seq<nat>, destination: string,
                                     faults: MoveFault)
    requires Valid(s) && Fits(s, names) && destination in names && NoneNew(s, mailbox, ids, destination)
    ensures var r, n := MoveAll(s, mailbox, ids, destination, faults), Accepted(s, mailbox, ids, destination, faults);
      var m := MoveAll(s, mailbox, ids[..n], destination, faults).store;
      var kept := n < |ids|
        && Doubles(s, Key(mailbox, ids[n]), destination, faults(n), ids[n] in Begun(ids[..n], faults));
      && (r.result.Ok? <==> n == |ids|)
      && RowsMoved(s, m, mailbox, Begun(ids[..n], faults), destination)
      && (r.result == Err(SourceKept) <==> kept)
      && (kept ==> Key(mailbox, ids[n]) in s.mails)
      && r.store.mailboxes == m.mailboxes && r.store.files == m.files
      && r.store.mails == (if kept then m.mails[FreshKey(m, destination) := s.mails[Key(mailbox, ids[n])]] else m.mails)
  {
    hide Valid, Fits, Move, MayMove, RowsMoved, FreshKey, Begun, NoneNew;
    if ids == [] {
      NothingMoved(s, mailbox, destination);
      NoneBegun(faults);
      assert ids[..0] == [];
    } else {
      var n := |ids| - 1;
      var before := ids[..n];
      FewerNew(s, mailbox, ids, destination);
      MoveExact(s, names, mailbox, before, destination, faults);
      var m, a := MoveAll(s, mailbox, before, destination, faults), Accepted(s, mailbox, before, destination, faults);
      assert before[..a] == ids[..a];
      if m.result.Ok? {
        assert ids[..n] == before && before[..a] == before && ids[..n + 1] == ids;
        assert Valid(m.store) by {
          MoveConserves(s, names, mailbox, before, destination, faults);
        }
        LastNotNew(s, mailbox, ids, destination);
        MoveLast(s, m.store, mailbox, Begun(before, faults), ids[n], destination, faults(n));
        BegunSnoc(ids, faults);
      }
    }
  }

  lemma FewerNew(s: Store, mailbox: string, ids: seq<nat>, destination: string)
    requires ids != [] && NoneNew(s, mailbox, ids, destination)
    ensures NoneNew(s, mailbox, ids[..|ids| - 1], destination)
  {
    hide FreshKey;
  }

  lemma LastNotNew(s: Store, mailbox: string, ids: seq<nat>, destination: string)
    requires ids != [] && NoneNew(s, mailbox, ids, destination)
    ensures mailbox == destination ==> ids[|ids| - 1] < FreshKey(s, destination).id
  {
    hide FreshKey;
  }

  lemma NoneBegun(faults: MoveFault)
    ensures Begun([], faults) == []
  {
  }

  lemma BegunSnoc(ids: seq<nat>, faults: MoveFault)
    requires ids != []
    ensures var n := |ids| - 1;
      Begun(ids, faults) == if faults(n).begin then Begun(ids[..n], faults) else Begun(ids[..n], faults) + [ids[n]]
  {
  }

  lemma NothingMoved(s: Store, mailbox: string, destination: string)
    ensures RowsMoved(s, s, mailbox, [], destination)
  {
  }

  /** Half way, an id still has its message exactly if it had one and has not been moved. */
  lemma StillThere(s: Store, t: Store, mailbox: string, ids: seq<nat>, id: nat, destination: string)
    requires RowsMoved(s, t, mailbox, ids, destination)
    requires mailbox == destination ==> id < FreshKey(s, destination).id
    ensures Key(mailbox, id) in t.mails <==> Key(mailbox, id) in s.mails && id !in ids
    ensures Key(mailbox, id) in t.mails ==> t.mails[Key(mailbox, id)] == s.mails[Key(mailbox, id)]
  {
    hide FreshKey, RowAt;
    var k := Key(mailbox, id);
    if k in s.mails && id !in ids {
      assert !IsMoved(k, mailbox, ids);
    }
    if k in t.mails {
      assert !IsNew(s, k) by {
        assert IsNew(s, k) ==> IsIn(k, destination);
      }
    }
  }

  lemma MoveLast(s: Store, t: Store, mailbox: string, ids: seq<nat>, id: nat, destination: string, f: MoveFaults)
    requires Valid(t) && RowsMoved(s, t, mailbox, ids, destination)
    requires mailbox == destination ==> id < FreshKey(s, destination).id
    ensures var r, k := Move(t, Key(mailbox, id), destination, false, f), Key(mailbox, id);
      && (r.result.Ok? <==> MayMove(s, k, destination, f, id in ids))
      && (r.result == Err(SourceKept) <==> Doubles(s, k, destination, f, id in ids))
      && (r.result == Err(SourceKept) ==> k in s.mails)
      && (r.result.Ok? ==> RowsMoved(s, r.store, mailbox, if f.begin then ids else ids + [id], destination))
      && r.store.mailboxes == t.mailboxes && r.store.files == t.files
      && (r.result.Err? ==>
            r.store.mails == if r.result == Err(SourceKept) then t.mails[FreshKey(t, destination) := s.mails[k]]
                             else t.mails)
  {
    hide Move, Valid, FreshKey, OthersKept, RowAt;
    var k := Key(mailbox, id);
    assert t.mailboxes == s.mailboxes;
    StillThere(s, t, mailbox, ids, id, destination);
    if k in t.mails {
      MoveOneRow(t, k, destination, f);
      if MayMove(s, k, destination, f, false) && !f.begin {
        OneMoreRow(s, t, Move(t, k, destination, false, f).store, mailbox, ids, id, destination);
      }
    } else {
      MoveNoRow(t, k, destination, f);
    }
  }

  lemma OldIds(s: Store, k: Key)
    requires k in s.mails
    ensures !IsNew(s, k)
  {
    assert Key(k.mailbox, k.id) in s.mails.Keys;
  }

  lemma OneMoreRow(s: Store, t: Store, r: Store, mailbox: string, ids: seq<nat>, id: nat, destination: string)
    requires RowsMoved(s, t, mailbox, ids, destination)
    requires Key(mailbox, id) in s.mails && id !in ids
    requires Key(mailbox, id) in t.mails && t.mails[Key(mailbox, id)] == s.mails[Key(mailbox, id)]
    requires r.mailboxes == t.mailboxes && r.files == t.files
    requires r.mails == t.mails[FreshKey(t, destination) := t.mails[Key(mailbox, id)]] - {Key(mailbox, id)}
    requires FreshKey(r, destination).id == FreshKey(t, destination).id + 1
    ensures RowsMoved(s, r, mailbox, ids + [id], destination)
  {
    hide FreshKey, OthersKept, IsNew, RowAt, IsIn, IsMoved;
    RowsStay(s, t, r, mailbox, ids, id, destination);
    NewRow(s, t, r, mailbox, ids, id, destination);
    MovedAlso(mailbox, ids, id);
    OthersStillKept(s, t, r, mailbox, ids, ids + [id], Key(mailbox, id), destination, FreshKey(t, destination));
  }

  lemma RowsStay(s: Store, t: Store, r: Store, mailbox: string, ids: seq<nat>, id: nat, destination: string)
    requires RowsMoved(s, t, mailbox, ids, destination) && Key(mailbox, id) in s.mails && Key(mailbox, id) in t.mails
    requires r.mails == t.mails[FreshKey(t, destination) := t.mails[Key(mailbox, id)]] - {Key(mailbox, id)}
    ensures forall i :: 0 <= i < |ids| ==> RowAt(s, r, mailbox, ids + [id], destination, i)
  {
    hide OthersKept, RowAt;
    forall i | 0 <= i < |ids| ensures RowAt(s, r, mailbox, ids + [id], destination, i) {
      RowStays(s, t, r, mailbox, ids, id, destination, i);
    }
  }

  lemma MovedAlso(mailbox: string, ids: seq<nat>, id: nat)
    ensures forall j :: IsMoved(j, mailbox, ids + [id]) <==> IsMoved(j, mailbox, ids) || j == Key(mailbox, id)
  {
  }

  lemma NewRow(s: Store, t: Store, r: Store, mailbox: string, ids: seq<nat>, id: nat, destination: string)
    requires FreshKey(t, destination).id == FreshKey(s, destination).id + |ids|
    requires Key(mailbox, id) in s.mails
    requires Key(mailbox, id) in t.mails && t.mails[Key(mailbox, id)] == s.mails[Key(mailbox, id)]
    requires r.mails == t.mails[FreshKey(t, destination) := t.mails[Key(mailbox, id)]] - {Key(mailbox, id)}
    ensures IsNew(s, FreshKey(t, destination)) && IsIn(FreshKey(t, destination), destination)
    ensures RowAt(s, r, mailbox, ids + [id], destination, |ids|)
  {
    OldIds(s, Key(mailbox, id));
  }

  lemma RowStays(s: Store, t: Store, r: Store, mailbox: string, ids: seq<nat>, id: nat, destination: string, i: nat)
    requires i < |ids| && RowAt(s, t, mailbox, ids, destination, i)
    requires Key(mailbox, id) in s.mails && FreshKey(t, destination).id == FreshKey(s, destination).id + |ids|
    requires Key(mailbox, id) in t.mails
    requires r.mails == t.mails[FreshKey(t, destination) := t.mails[Key(mailbox, id)]] - {Key(mailbox, id)}
    ensures RowAt(s, r, mailbox, ids + [id], destination, i)
  {
    OldIds(s, Key(mailbox, id));
  }

  lemma OthersStillKept(s: Store, t: Store, r: Store, mailbox: string, ids: seq<nat>, all: seq<nat>, k: Key,
                        destination: string, to: Key)
    requires OthersKept(s, t, mailbox, ids, destination)
    requires k in t.mails && IsIn(to, destination) && IsNew(s, to)
    requires forall j :: IsMoved(j, mailbox, all) <==> IsMoved(j, mailbox, ids) || j == k
    requires r.mails == t.mails[to := t.mails[k]] - {k}
    ensures OthersKept(s, r, mailbox, all, destination)
  {
    hide IsMoved, IsNew, IsIn;
    forall j | j in s.mails ensures !IsNew(s, j) {
      OldIds(s, j);
    }
    assert forall j :: j in r.mails <==> j != k && (j == to || j in t.mails);
  }
}
