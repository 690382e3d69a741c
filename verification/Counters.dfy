// The counters of a queue object over a run, in terms of the run's attempts, and
// what they make the next run wait: sender.go, retryCount and permanentFailure.

module Counters {
  import opened Types
  import opened StoreModel
  import opened Delivery
  import opened Conservation
  import opened Drain
  import opened Backoff

  // ----- One attempt -----

  /** An attempt that failed and may succeed later: a self-send that stored nothing, a remote one that was refused or
      broke off, or a delivery that could not be recorded, unless the error is permanent. */
  predicate TemporarilyFails(v: View, destination: string, self: bool, id: nat, a: Attempt) {
    && Sendable(v, id, a)
    && if self then a.faults.create.Fails? || (a.faults.create.Succeeds? && INBOX !in v.mailboxes)
       else
         || (a.send.Failed? && a.send.kind != PermanentError)
         || (a.send.Delivered? && RecordFails(v, destination, id, a.faults) && a.faults.kind != PermanentError)
  }

  /** A delivery with nothing left to report: for a self-send the errors behind it are ignored. */
  predicate Recorded(v: View, destination: string, self: bool, id: nat, a: Attempt) {
    Delivers(v, self, id, a) && (self || !RecordFails(v, destination, id, a.faults))
  }

  /** What one attempt does to the counters. */
  ghost predicate Counts(v: View, p: Progress, r: Progress, destination: string, self: bool, id: nat, a: Attempt) {
    if TemporarilyFails(v, destination, self, id, a) then
      r.retryCount == p.retryCount + 1 && r.permanentFailure == p.permanentFailure
    else if Recorded(v, destination, self, id, a) then
      r.retryCount == 0 && r.permanentFailure == (self && p.permanentFailure)
    else
      && r.retryCount == p.retryCount
      && r.permanentFailure == (p.permanentFailure || GivesUp(v, destination, self, id, a))
  }

  lemma RemoteCounts(p: Progress, destination: string, id: nat, a: Attempt)
    requires QueueOk(p.view) && HasRow(p.view, destination, id) && Sendable(p.view, id, a)
    ensures Counts(p.view, p, ProcessRemote(p, destination, id, a), destination, false, id, a)
  {
    hide PendingElsewhere, Untouched, HasRow, Remains, Pending, Settle, DropRow, QueueOk, Retire;
    var v, f := p.view, a.faults;
    var v1 := DropRow(v, destination, id, f.queueDelete);
    StartRemains(v, destination, id);
    DropRowRemains(v, v, destination, id, f.queueDelete);
    DropRowQueueOk(v, destination, id, f.queueDelete);
    SettleOwn(v, v1, destination, id, f);
  }

  lemma ProcessCounts(p: Progress, destination: string, self: bool, id: nat, a: Attempt)
    requires QueueOk(p.view) && !p.stopped && (Live(p.view, id) ==> HasRow(p.view, destination, id))
    ensures Counts(p.view, p, Process(p, destination, self, id, a), destination, self, id, a)
  {
    hide ProcessRemote, Retire, Settle, DropRow, Pending, PendingElsewhere, HasRow, Put, Fresh, QueueOk;
    if Sendable(p.view, id, a) && !self {
      RemoteCounts(p, destination, id, a);
    }
  }

  /** An attempt on a message that no earlier attempt was about counts as it would have at the start of the run. */
  lemma SameCounts(v0: View, v: View, p: Progress, r: Progress, destination: string, self: bool, id: nat, a: Attempt)
    requires Untouched(v0, v, id) && v.mailboxes == v0.mailboxes && Counts(v, p, r, destination, self, id, a)
    ensures Counts(v0, p, r, destination, self, id, a)
  {
    hide PendingElsewhere, HasRow;
    if Live(v0, id) {
      SameRows(v0, v, destination, id);
    }
  }

  // ----- The run -----

  ghost predicate FailsAt(v0: View, destination: string, self: bool, refs: seq<nat>, attempts: seq<Attempt>, j: nat)
    requires |refs| == |attempts|
  {
    && j < |refs| && !StoppedBefore(v0, destination, self, refs, attempts, j)
    && TemporarilyFails(v0, destination, self, refs[j], attempts[j])
  }

  ghost predicate RecordedAt(v0: View, destination: string, self: bool, refs: seq<nat>, attempts: seq<Attempt>, j: nat)
    requires |refs| == |attempts|
  {
    && j < |refs| && !StoppedBefore(v0, destination, self, refs, attempts, j)
    && Recorded(v0, destination, self, refs[j], attempts[j])
  }

  ghost predicate LastRecorded(v0: View, destination: string, self: bool, refs: seq<nat>, attempts: seq<Attempt>,
                               j: nat)
    requires |refs| == |attempts|
  {
    && RecordedAt(v0, destination, self, refs, attempts, j)
    && forall k: nat :: j < k ==> !RecordedAt(v0, destination, self, refs, attempts, k)
  }

  ghost predicate NoneRecorded(v0: View, destination: string, self: bool, refs: seq<nat>, attempts: seq<Attempt>)
    requires |refs| == |attempts|
  {
    forall j: nat :: !RecordedAt(v0, destination, self, refs, attempts, j)
  }

  /** The temporary failures from attempt m on. */
  ghost function FailuresFrom(v0: View, destination: string, self: bool, refs: seq<nat>, attempts: seq<Attempt>,
                              m: nat): set<nat>
    requires |refs| == |attempts|
  {
    set j: nat | m <= j < |refs| && FailsAt(v0, destination, self, refs, attempts, j)
  }

  /** The retry count is that of the temporary failures since the last recorded delivery, or since ever; the mark of a
      permanent failure is set by the attempt that ends the run and cleared by a recorded remote delivery. */
  ghost predicate Counted(v0: View, destination: string, self: bool, refs: seq<nat>, attempts: seq<Attempt>,
                          started: nat, marked: bool, retryCount: nat, permanentFailure: bool) {
    && |refs| == |attempts|
    && (forall j: nat :: LastRecorded(v0, destination, self, refs, attempts, j) ==>
          && retryCount == |FailuresFrom(v0, destination, self, refs, attempts, j + 1)|
          && (permanentFailure <==> StoppedBefore(v0, destination, self, refs, attempts, |refs|) || (self && marked)))
    && (NoneRecorded(v0, destination, self, refs, attempts) ==>
          && retryCount == started + |FailuresFrom(v0, destination, self, refs, attempts, 0)|
          && (permanentFailure <==> StoppedBefore(v0, destination, self, refs, attempts, |refs|) || marked))
  }

  lemma PrefixCounts(v0: View, destination: string, self: bool, refs: seq<nat>, attempts: seq<Attempt>, n: nat, j: nat)
    requires |refs| == |attempts| && j < n <= |refs|
    ensures FailsAt(v0, destination, self, refs[..n], attempts[..n], j)
      <==> FailsAt(v0, destination, self, refs, attempts, j)
    ensures RecordedAt(v0, destination, self, refs[..n], attempts[..n], j)
      <==> RecordedAt(v0, destination, self, refs, attempts, j)
  {
    hide TemporarilyFails, Recorded, StoppedBefore;
    StoppedPrefix(v0, destination, self, refs, attempts, j, n);
  }

  lemma FailuresSnoc(v0: View, destination: string, self: bool, refs: seq<nat>, attempts: seq<Attempt>, m: nat)
    requires |refs| == |attempts| && refs != [] && m < |refs|
    ensures var n := |refs| - 1;
      |FailuresFrom(v0, destination, self, refs, attempts, m)|
        == |FailuresFrom(v0, destination, self, refs[..n], attempts[..n], m)|
           + if FailsAt(v0, destination, self, refs, attempts, n) then 1 else 0
  {
    hide FailsAt;
    var n := |refs| - 1;
    var before := FailuresFrom(v0, destination, self, refs[..n], attempts[..n], m);
    forall j: nat | j < n
      ensures FailsAt(v0, destination, self, refs[..n], attempts[..n], j)
        <==> FailsAt(v0, destination, self, refs, attempts, j)
    {
      PrefixCounts(v0, destination, self, refs, attempts, n, j);
    }
    assert FailuresFrom(v0, destination, self, refs, attempts, m)
        == before + if FailsAt(v0, destination, self, refs, attempts, n) then {n} else {};
  }

  lemma RecordedSnoc(v0: View, destination: string, self: bool, refs: seq<nat>, attempts: seq<Attempt>)
    requires |refs| == |attempts| && refs != []
    ensures var n := |refs| - 1;
      var now := RecordedAt(v0, destination, self, refs, attempts, n);
      && (NoneRecorded(v0, destination, self, refs, attempts) <==>
            !now && NoneRecorded(v0, destination, self, refs[..n], attempts[..n]))
      && (forall j: nat :: LastRecorded(v0, destination, self, refs, attempts, j) <==>
            if now then j == n else LastRecorded(v0, destination, self, refs[..n], attempts[..n], j))
  {
    hide Recorded, StoppedBefore;
    var n := |refs| - 1;
    forall j: nat | j < n
      ensures RecordedAt(v0, destination, self, refs[..n], attempts[..n], j)
        <==> RecordedAt(v0, destination, self, refs, attempts, j)
    {
      PrefixCounts(v0, destination, self, refs, attempts, n, j);
    }
  }

  /** Every list of references, every outcome and every failing statement. */
  lemma {:induction false} RunCounts(v0: View, destination: string, self: bool, refs: seq<nat>, attempts: seq<Attempt>,
                                     retryCount: nat, permanentFailure: bool)
    requires ListedRun(v0, destination, refs, attempts)
    ensures var p := ProcessAll(Start(v0, retryCount, permanentFailure), destination, self, refs, attempts);
      Counted(v0, destination, self, refs, attempts, retryCount, permanentFailure, p.retryCount, p.permanentFailure)
  {
    hide Process, Counted, Untouched, HasRow, AllExplained, QueueOk;
    if refs == [] {
      NothingCounted(v0, destination, self, retryCount, permanentFailure);
    } else {
      var n := |refs| - 1;
      var b := ProcessAll(Start(v0, retryCount, permanentFailure), destination, self, refs[..n], attempts[..n]);
      RunCounts(v0, destination, self, refs[..n], attempts[..n], retryCount, permanentFailure);
      RunExplained(v0, destination, self, refs[..n], attempts[..n], retryCount, permanentFailure);
      RunAccounts(v0, destination, self, refs[..n], attempts[..n], retryCount, permanentFailure);
      assert refs[n] !in refs[..n];
      OneMoreCounted(v0, b, destination, self, refs, attempts, retryCount, permanentFailure);
    }
  }

  lemma NothingCounted(v0: View, destination: string, self: bool, retryCount: nat, permanentFailure: bool)
    ensures Counted(v0, destination, self, [], [], retryCount, permanentFailure, retryCount, permanentFailure)
  {
    assert FailuresFrom(v0, destination, self, [], [], 0) == {};
  }

  lemma OneMoreCounted(v0: View, b: Progress, destination: string, self: bool, refs: seq<nat>, attempts: seq<Attempt>,
                       started: nat, marked: bool)
    requires |refs| == |attempts| && refs != [] && refs[|refs| - 1] !in refs[..|refs| - 1]
    requires HasRow(v0, destination, refs[|refs| - 1]) && QueueOk(b.view) && b.view.mailboxes == v0.mailboxes
    requires AllExplained(v0, b, destination, self, refs[..|refs| - 1], attempts[..|refs| - 1])
    requires Counted(v0, destination, self, refs[..|refs| - 1], attempts[..|refs| - 1], started, marked,
                     b.retryCount, b.permanentFailure)
    ensures var p := Process(b, destination, self, refs[|refs| - 1], attempts[|refs| - 1]);
      Counted(v0, destination, self, refs, attempts, started, marked, p.retryCount, p.permanentFailure)
  {
    hide Process, Explained, Untouched, HasRow, QueueOk, StoppedBefore, Counts, Counted;
    var n := |refs| - 1;
    var id, a := refs[n], attempts[n];
    var p := Process(b, destination, self, id, a);
    StoppedPrefix(v0, destination, self, refs, attempts, n, n);
    if b.stopped {
      StaysStopped(b, destination, self, id, a);
    } else {
      AttemptCounts(v0, b, destination, self, id, a);
    }
    CountedSnoc(v0, b, p, destination, self, refs, attempts, started, marked);
  }

  lemma StaysStopped(p: Progress, destination: string, self: bool, id: nat, a: Attempt)
    requires p.stopped
    ensures Process(p, destination, self, id, a) == p
  {
  }

  lemma AttemptCounts(v0: View, b: Progress, destination: string, self: bool, id: nat, a: Attempt)
    requires Untouched(v0, b.view, id) && HasRow(v0, destination, id) && QueueOk(b.view)
    requires b.view.mailboxes == v0.mailboxes && !b.stopped
    ensures Counts(v0, b, Process(b, destination, self, id, a), destination, self, id, a)
  {
    hide Process, Counts, QueueOk;
    if Live(b.view, id) {
      LiveBefore(v0, b.view, id);
      SameRows(v0, b.view, destination, id);
    }
    ProcessCounts(b, destination, self, id, a);
    SameCounts(v0, b.view, b, Process(b, destination, self, id, a), destination, self, id, a);
  }

  lemma CountedSnoc(v0: View, b: Progress, p: Progress, destination: string, self: bool, refs: seq<nat>,
                    attempts: seq<Attempt>, started: nat, marked: bool)
    requires |refs| == |attempts| && refs != []
    requires b.stopped <==> StoppedBefore(v0, destination, self, refs, attempts, |refs| - 1)
    requires if b.stopped then p == b else Counts(v0, b, p, destination, self, refs[|refs| - 1], attempts[|refs| - 1])
    requires Counted(v0, destination, self, refs[..|refs| - 1], attempts[..|refs| - 1], started, marked,
                     b.retryCount, b.permanentFailure)
    ensures Counted(v0, destination, self, refs, attempts, started, marked, p.retryCount, p.permanentFailure)
  {
    hide StoppedBefore, TemporarilyFails, Recorded, FailuresFrom, LastRecorded, NoneRecorded, GivesUp;
    var n := |refs| - 1;
    StoppedPrefix(v0, destination, self, refs, attempts, n, n);
    StoppedOne(v0, destination, self, refs, attempts, n);
    RecordedSnoc(v0, destination, self, refs, attempts);
    FailuresSnoc(v0, destination, self, refs, attempts, 0);
    NoFailures(v0, destination, self, refs, attempts);
    forall j: nat | LastRecorded(v0, destination, self, refs[..n], attempts[..n], j)
      ensures |FailuresFrom(v0, destination, self, refs, attempts, j + 1)|
           == |FailuresFrom(v0, destination, self, refs[..n], attempts[..n], j + 1)|
              + if FailsAt(v0, destination, self, refs, attempts, n) then 1 else 0
    {
      LastIsInside(v0, destination, self, refs[..n], attempts[..n], j);
      FailuresSnoc(v0, destination, self, refs, attempts, j + 1);
    }
    EitherWay(v0, destination, self, refs[n], attempts[n]);
    NothingBehind(v0, destination, self, refs[..n], attempts[..n]);
    RecordedOrNot(v0, destination, self, refs[..n], attempts[..n], n);
  }

  lemma NothingBehind(v0: View, destination: string, self: bool, refs: seq<nat>, attempts: seq<Attempt>)
    requires |refs| == |attempts|
    ensures forall k: nat :: |refs| <= k ==> !RecordedAt(v0, destination, self, refs, attempts, k)
  {
  }

  lemma {:induction false} RecordedOrNot(v0: View, destination: string, self: bool, refs: seq<nat>,
                                         attempts: seq<Attempt>, n: nat)
    requires |refs| == |attempts| && forall k: nat :: n <= k ==> !RecordedAt(v0, destination, self, refs, attempts, k)
    ensures NoneRecorded(v0, destination, self, refs, attempts)
      || exists j: nat :: LastRecorded(v0, destination, self, refs, attempts, j)
  {
    hide RecordedAt;
    if n > 0 {
      if RecordedAt(v0, destination, self, refs, attempts, n - 1) {
        assert LastRecorded(v0, destination, self, refs, attempts, n - 1);
      } else {
        RecordedOrNot(v0, destination, self, refs, attempts, n - 1);
      }
    }
  }

  lemma LastIsInside(v0: View, destination: string, self: bool, refs: seq<nat>, attempts: seq<Attempt>, j: nat)
    requires |refs| == |attempts| && LastRecorded(v0, destination, self, refs, attempts, j)
    ensures j < |refs|
  {
  }

  lemma NoFailures(v0: View, destination: string, self: bool, refs: seq<nat>, attempts: seq<Attempt>)
    requires |refs| == |attempts|
    ensures FailuresFrom(v0, destination, self, refs, attempts, |refs|) == {}
  {
  }

  /** An attempt counts in one way only. */
  lemma EitherWay(v: View, destination: string, self: bool, id: nat, a: Attempt)
    ensures !(TemporarilyFails(v, destination, self, id, a) && Recorded(v, destination, self, id, a))
    ensures GivesUp(v, destination, self, id, a) ==>
      !TemporarilyFails(v, destination, self, id, a) && !Recorded(v, destination, self, id, a)
  {
  }

  // ----- The next run -----

  /** How long a run waits before it starts. */
  ghost predicate Waits(retryCount: nat, lastAttempt: Option<int>, start: int, jitter: real) {
    lastAttempt.Some? && retryCount > 0 ==> start >= lastAttempt.value + CalculateBackoff(retryCount, jitter)
  }

  /** A run that had a temporary failure after its last recorded delivery is followed by a wait of at least 48 seconds,
      from its own start to that of the next. */
  lemma NextRunWaits(v0: View, destination: string, self: bool, refs: seq<nat>, attempts: seq<Attempt>, started: nat,
                     marked: bool, retryCount: nat, permanentFailure: bool, first: int, second: int,
                     jitter: real, j: nat)
    requires Counted(v0, destination, self, refs, attempts, started, marked, retryCount, permanentFailure)
    requires FailsAt(v0, destination, self, refs, attempts, j)
    requires forall k: nat :: j < k ==> !RecordedAt(v0, destination, self, refs, attempts, k)
    requires Waits(retryCount, Some(first), second, jitter) && ValidJitter(jitter)
    ensures retryCount > 0 && second >= first + 48
  {
    hide FailsAt, RecordedAt, CalculateBackoff;
    RecordedOrNot(v0, destination, self, refs, attempts, j + 1);
    FailureCounts(v0, destination, self, refs, attempts, j);
    BackoffBounds(retryCount, jitter);
  }

  lemma FailureCounts(v0: View, destination: string, self: bool, refs: seq<nat>, attempts: seq<Attempt>, j: nat)
    requires |refs| == |attempts| && FailsAt(v0, destination, self, refs, attempts, j)
    requires forall k: nat :: j < k ==> !RecordedAt(v0, destination, self, refs, attempts, k)
    ensures forall m: nat :: m <= j ==> |FailuresFrom(v0, destination, self, refs, attempts, m)| > 0
    ensures forall k: nat :: LastRecorded(v0, destination, self, refs, attempts, k) ==> k < j
  {
    hide StoppedBefore;
    forall m: nat | m <= j ensures |FailuresFrom(v0, destination, self, refs, attempts, m)| > 0 {
      assert j in FailuresFrom(v0, destination, self, refs, attempts, m);
    }
    EitherWay(v0, destination, self, refs[j], attempts[j]);
  }
}
