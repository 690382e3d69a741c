// Starting runs: queueFor and manager in sender.go. Every interleaving of enqueueing,
// the periodic manager and the runs of any number of destinations.

module Dispatch {

  /** A goroutine in Queue.run: still to read its references, or with some left to attempt. */
  datatype Run = Run(destination: string, started: bool, left: set<nat>)

  datatype System = System(rows: set<(string, nat)>, running: set<string>, runs: map<nat, Run>, todo: set<string>)

  datatype Step =
    | Insert(d: string, id: nat)               // INSERT INTO queue
    | Wake(d: string, g: nat)              // queueFor(d) by an enqueue; g names the goroutine it may start
    | Tick                                     // manager: SELECT DISTINCT destination
    | TickWake(d: string, g: nat)          // manager: queueFor of one of them
    | List(r: nat)                             // SELECT ... WHERE destination
    | Try(r: nat, id: nat, retired: bool)      // one reference, and whether its row goes
    | Finish(r: nat, gaveUp: bool)             // running.Store(false); gaveUp: unreadable list or permanent error

  function RowsOf(s: System, d: string): set<nat> {
    set row | row in s.rows && row.0 == d :: row.1
  }

  predicate Enabled(s: System, step: Step) {
    match step
    case Insert(_, _) => true
    case Wake(_, g) => g !in s.runs
    case Tick => s.todo == {}
    case TickWake(d, g) => d in s.todo && g !in s.runs
    case List(r) => r in s.runs && !s.runs[r].started
    case Try(r, id, _) => r in s.runs && s.runs[r].started && id in s.runs[r].left
    case Finish(r, gaveUp) => r in s.runs && (gaveUp || (s.runs[r].started && s.runs[r].left == {}))
  }

  /** CompareAndSwap(false, true), then go q.run(). */
  function QueueFor(s: System, d: string, g: nat): System {
    if d in s.running then s else s.(running := s.running + {d}, runs := s.runs[g := Run(d, false, {})])
  }

  function Apply(s: System, step: Step): System
    requires Enabled(s, step)
  {
    match step
    case Insert(d, id) => s.(rows := s.rows + {(d, id)})
    case Wake(d, g) => QueueFor(s, d, g)
    case Tick => s.(todo := set row | row in s.rows :: row.0)
    case TickWake(d, g) => QueueFor(s, d, g).(todo := s.todo - {d})
    case List(r) => s.(runs := s.runs[r := s.runs[r].(started := true, left := RowsOf(s, s.runs[r].destination))])
    case Try(r, id, retired) =>
      s.(runs := s.runs[r := s.runs[r].(left := s.runs[r].left - {id})],
         rows := if retired then s.rows - {(s.runs[r].destination, id)} else s.rows)
    case Finish(r, _) => s.(runs := s.runs - {r}, running := s.running - {s.runs[r].destination})
  }

  predicate Serves(run: Run, d: string) {
    run.destination == d
  }

  /** `running` marks exactly the destinations with a run, and no destination has two. */
  ghost predicate OneRun(s: System) {
    && (forall d :: d in s.running <==> exists r :: r in s.runs && Serves(s.runs[r], d))
    && (forall q, r :: q in s.runs && r in s.runs && s.runs[q].destination == s.runs[r].destination ==> q == r)
  }

  lemma StepOneRun(s: System, step: Step)
    requires OneRun(s) && Enabled(s, step)
    ensures OneRun(Apply(s, step))
  {
    var t := Apply(s, step);
    forall d ensures d in t.running <==> exists r :: r in t.runs && Serves(t.runs[r], d) {
      RunningIsExact(s, step, d);
    }
  }

  lemma RunningIsExact(s: System, step: Step, d: string)
    requires OneRun(s) && Enabled(s, step)
    ensures d in Apply(s, step).running <==> exists r :: r in Apply(s, step).runs && Serves(Apply(s, step).runs[r], d)
  {
    var t := Apply(s, step);
    if r :| r in s.runs && Serves(s.runs[r], d) {
      assert r in t.runs ==> Serves(t.runs[r], d);
    }
    if (step.Wake? || step.TickWake?) && step.d !in s.running {
      assert Serves(t.runs[step.g], step.d);
    }
    if r :| r in t.runs && Serves(t.runs[r], d) {
      assert r in s.runs ==> Serves(s.runs[r], d);
    }
  }

  ghost predicate IsRun(states: seq<System>, steps: seq<Step>) {
    && |states| == |steps| + 1 && states[0].running == {} && states[0].runs == map[]
    && forall i :: 0 <= i < |steps| ==> Enabled(states[i], steps[i]) && states[i + 1] == Apply(states[i], steps[i])
  }

  /** In every interleaving a destination never has two runs at once. */
  lemma {:induction false} NeverTwoRuns(states: seq<System>, steps: seq<Step>, n: nat)
    requires IsRun(states, steps) && n <= |steps|
    ensures OneRun(states[n])
  {
    if n > 0 {
      NeverTwoRuns(states, steps, n - 1);
      hide OneRun, Apply, Enabled;
      StepOneRun(states[n - 1], steps[n - 1]);
    }
  }

  // ----- Which rows there are -----

  /** Row (d, id) was there at the start, or was inserted, before step m. */
  ghost predicate Queued(states: seq<System>, steps: seq<Step>, m: nat, d: string, id: nat)
    requires |states| == |steps| + 1 && m <= |steps|
  {
    if m == 0 then (d, id) in states[0].rows else steps[m - 1] == Insert(d, id)
  }

  /** Step i is an attempt that retires the row. */
  ghost predicate Retires(states: seq<System>, steps: seq<Step>, i: nat, d: string, id: nat)
    requires |states| == |steps| + 1 && i < |steps|
  {
    && steps[i].Try? && steps[i].id == id && steps[i].retired
    && steps[i].r in states[i].runs && states[i].runs[steps[i].r].destination == d
  }

  ghost predicate QueuedSince(states: seq<System>, steps: seq<Step>, m: nat, n: nat, d: string, id: nat)
    requires |states| == |steps| + 1 && n <= |steps|
  {
    m <= n && Queued(states, steps, m, d, id) && forall i: nat :: m <= i < n ==> !Retires(states, steps, i, d, id)
  }

  /** A row is in the queue exactly if it was put there and no attempt has retired it since. */
  lemma {:induction false} RowIffQueued(states: seq<System>, steps: seq<Step>, n: nat, d: string, id: nat)
    requires IsRun(states, steps) && n <= |steps|
    ensures (d, id) in states[n].rows <==> exists m: nat :: QueuedSince(states, steps, m, n, d, id)
  {
    hide Queued, Retires;
    if n == 0 {
      NowQueued(states, steps, 0, d, id);
    } else {
      RowIffQueued(states, steps, n - 1, d, id);
      RowStep(states, steps, n, d, id);
      NowQueued(states, steps, n, d, id);
      if (d, id) in states[n - 1].rows && !Retires(states, steps, n - 1, d, id) {
        var m: nat :| QueuedSince(states, steps, m, n - 1, d, id);
        assert QueuedSince(states, steps, m, n, d, id);
      }
      if m: nat :| QueuedSince(states, steps, m, n, d, id) {
        assert m < n ==> QueuedSince(states, steps, m, n - 1, d, id);
      }
    }
  }

  lemma NowQueued(states: seq<System>, steps: seq<Step>, n: nat, d: string, id: nat)
    requires |states| == |steps| + 1 && n <= |steps|
    ensures Queued(states, steps, n, d, id) <==> QueuedSince(states, steps, n, n, d, id)
    ensures n == 0 ==> (Queued(states, steps, 0, d, id) <==> (d, id) in states[0].rows)
  {
  }

  lemma RowStep(states: seq<System>, steps: seq<Step>, n: nat, d: string, id: nat)
    requires IsRun(states, steps) && 0 < n <= |steps|
    ensures (d, id) in states[n].rows <==>
      || Queued(states, steps, n, d, id)
      || ((d, id) in states[n - 1].rows && !Retires(states, steps, n - 1, d, id))
  {
    assert Enabled(states[n - 1], steps[n - 1]) && states[n] == Apply(states[n - 1], steps[n - 1]);
  }

  /** Some step between m and n is an attempt of run r at the reference. */
  ghost predicate TriedBy(steps: seq<Step>, m: nat, n: nat, r: nat, id: nat)
    requires n <= |steps|
  {
    exists i: nat :: m < i < n && steps[i].Try? && steps[i].r == r && steps[i].id == id
  }

  /** A run that goes on has left exactly the references it read and has not attempted, so it attempts each once. */
  lemma {:induction false} LeftIsUntried(states: seq<System>, steps: seq<Step>, m: nat, n: nat, r: nat)
    requires IsRun(states, steps) && m < n <= |steps| && steps[m] == List(r)
    requires forall i: nat :: m < i < n ==> !(steps[i].Finish? && steps[i].r == r)
    ensures r in states[m].runs && r in states[n].runs && states[n].runs[r].started
    ensures forall id :: id in states[n].runs[r].left <==>
      (states[m].runs[r].destination, id) in states[m].rows && !TriedBy(steps, m, n, r, id)
  {
    if n == m + 1 {
      ListedNow(states[m], r);
      assert Enabled(states[m], steps[m]);
    } else {
      LeftIsUntried(states, steps, m, n - 1, r);
      assert Enabled(states[n - 1], steps[n - 1]) && states[n] == Apply(states[n - 1], steps[n - 1]);
      forall id ensures TriedBy(steps, m, n, r, id) <==>
        TriedBy(steps, m, n - 1, r, id) || (steps[n - 1].Try? && steps[n - 1].r == r && steps[n - 1].id == id)
      {
        if TriedBy(steps, m, n - 1, r, id) {
          var i: nat :| m < i < n - 1 && steps[i].Try? && steps[i].r == r && steps[i].id == id;
          assert m < i < n;
        }
      }
    }
  }

  lemma ListedNow(s: System, r: nat)
    requires Enabled(s, List(r))
    ensures forall id :: id in Apply(s, List(r)).runs[r].left <==> (s.runs[r].destination, id) in s.rows
  {
    forall id | (s.runs[r].destination, id) in s.rows ensures id in RowsOf(s, s.runs[r].destination) {
      assert (s.runs[r].destination, id).1 == id;
    }
  }

  /** A run that ends without giving up has attempted every row there was when it read its references. */
  lemma FinishTriesAll(states: seq<System>, steps: seq<Step>, m: nat, n: nat, r: nat, id: nat)
    requires IsRun(states, steps) && m < n < |steps| && steps[m] == List(r) && steps[n] == Finish(r, false)
    requires forall i: nat :: m < i < n ==> !(steps[i].Finish? && steps[i].r == r)
    requires r in states[m].runs && (states[m].runs[r].destination, id) in states[m].rows
    ensures TriedBy(steps, m, n, r, id)
  {
    LeftIsUntried(states, steps, m, n, r);
    assert Enabled(states[n], steps[n]);
  }

  // ----- When a destination is busy -----

  /** Step i starts goroutine g on destination d. */
  ghost predicate Starts(states: seq<System>, steps: seq<Step>, i: nat, d: string, g: nat)
    requires |states| == |steps| + 1 && i < |steps|
  {
    (steps[i] == Wake(d, g) || steps[i] == TickWake(d, g)) && d !in states[i].running
  }

  ghost predicate GoingSince(states: seq<System>, steps: seq<Step>, i: nat, n: nat, d: string, g: nat)
    requires |states| == |steps| + 1 && n <= |steps|
  {
    && i < n && Starts(states, steps, i, d, g)
    && forall j: nat :: i < j < n ==> !(steps[j].Finish? && steps[j].r == g)
  }

  lemma {:induction false} RunIffGoing(states: seq<System>, steps: seq<Step>, n: nat, d: string, g: nat)
    requires IsRun(states, steps) && n <= |steps|
    ensures g in states[n].runs && Serves(states[n].runs[g], d)
      <==> exists i: nat :: GoingSince(states, steps, i, n, d, g)
  {
    hide Starts, Serves;
    if n > 0 {
      RunIffGoing(states, steps, n - 1, d, g);
      GoingStep(states, steps, n, d, g);
      if Starts(states, steps, n - 1, d, g) {
        assert GoingSince(states, steps, n - 1, n, d, g);
      }
      if g in states[n].runs && Serves(states[n].runs[g], d) && !Starts(states, steps, n - 1, d, g) {
        var i: nat :| GoingSince(states, steps, i, n - 1, d, g);
        assert GoingSince(states, steps, i, n, d, g);
      }
      if i: nat :| GoingSince(states, steps, i, n, d, g) {
        assert i < n - 1 ==> GoingSince(states, steps, i, n - 1, d, g);
      }
    }
  }

  lemma GoingStep(states: seq<System>, steps: seq<Step>, n: nat, d: string, g: nat)
    requires IsRun(states, steps) && 0 < n <= |steps|
    ensures var s, t := states[n - 1], states[n];
      g in t.runs && Serves(t.runs[g], d) <==>
        || Starts(states, steps, n - 1, d, g)
        || (g in s.runs && Serves(s.runs[g], d) && !(steps[n - 1].Finish? && steps[n - 1].r == g))
  {
    assert Enabled(states[n - 1], steps[n - 1]) && states[n] == Apply(states[n - 1], steps[n - 1]);
  }

  /** A destination is busy exactly while a goroutine that was started for it has not ended. */
  lemma BusyIffGoing(states: seq<System>, steps: seq<Step>, n: nat, d: string)
    requires IsRun(states, steps) && n <= |steps|
    ensures d in states[n].running <==> exists i: nat, g: nat :: GoingSince(states, steps, i, n, d, g)
  {
    hide GoingSince, Serves;
    NeverTwoRuns(states, steps, n);
    if g :| g in states[n].runs && Serves(states[n].runs[g], d) {
      RunIffGoing(states, steps, n, d, g);
    }
    if i: nat, g: nat :| GoingSince(states, steps, i, n, d, g) {
      RunIffGoing(states, steps, n, d, g);
    }
  }

  /** A run that has read its references can always go on: it attempts any one that is left and then has one less, it
      ends when none is, and it may give up at any time. No step of another run changes what it has left. */
  lemma RunGoesOn(s: System, step: Step, r: nat, id: nat, retired: bool)
    requires r in s.runs && Enabled(s, step)
    ensures s.runs[r].started && id in s.runs[r].left ==>
      && Enabled(s, Try(r, id, retired))
      && |Apply(s, Try(r, id, retired)).runs[r].left| == |s.runs[r].left| - 1
    ensures s.runs[r].started && s.runs[r].left == {} ==> Enabled(s, Finish(r, false))
    ensures !s.runs[r].started ==> Enabled(s, List(r))
    ensures Enabled(s, Finish(r, true))
    ensures !(step.List? && step.r == r) && !(step.Try? && step.r == r) && !(step.Finish? && step.r == r) ==>
      r in Apply(s, step).runs && Apply(s, step).runs[r] == s.runs[r]
  {
  }

  // ----- Which rows a run will attempt -----

  predicate WillTry(run: Run, d: string, id: nat) {
    Serves(run, d) && (run.started ==> id in run.left)
  }

  ghost predicate Covered(s: System, d: string, id: nat) {
    exists r :: r in s.runs && WillTry(s.runs[r], d, id)
  }

  predicate TooLate(run: Run, d: string, id: nat) {
    Serves(run, d) && run.started && id !in run.left
  }

  /** Queueing for a destination covers its new row unless a run has already read its references without it:
      that row waits for the manager. */
  lemma EnqueueCovers(s: System, d: string, id: nat, g: nat)
    requires OneRun(s) && g !in s.runs
    ensures Covered(Apply(Apply(s, Insert(d, id)), Wake(d, g)), d, id)
      <==> !exists r :: r in s.runs && TooLate(s.runs[r], d, id)
  {
    WakeCovers(Apply(s, Insert(d, id)), Wake(d, g), id);
  }

  /** A covered row stays covered until it is attempted, or its run gives up. */
  lemma CoverageLasts(s: System, step: Step, d: string, id: nat)
    requires OneRun(s) && Covered(s, d, id) && (d, id) in s.rows && Enabled(s, step)
    ensures var t := Apply(s, step);
      || ((d, id) in t.rows && Covered(t, d, id))
      || (step.Try? && step.id == id && Serves(s.runs[step.r], d))
      || (step.Finish? && step.gaveUp && Serves(s.runs[step.r], d))
  {
    var t := Apply(s, step);
    var r :| r in s.runs && WillTry(s.runs[r], d, id);
    if step.List? && step.r == r {
      assert (d, id).1 in RowsOf(s, d);
    }
    if r in t.runs && WillTry(t.runs[r], d, id) {
      assert Covered(t, d, id);
    }
  }

  // ----- Whatever happens in between -----

  /** Some attempt at the row lies between two points of a history. */
  ghost predicate TriedBetween(states: seq<System>, steps: seq<Step>, m: nat, n: nat, d: string, id: nat)
    requires |states| == |steps| + 1 && n <= |steps|
  {
    exists i ::
      && m <= i < n && steps[i].Try? && steps[i].id == id && steps[i].r in states[i].runs
      && Serves(states[i].runs[steps[i].r], d)
  }

  /** One run has been going on all the time since m, and it had read its references without the row by then. */
  ghost predicate LateSince(states: seq<System>, m: nat, n: nat, d: string, id: nat)
    requires m <= n < |states|
  {
    && (exists r :: r in states[m].runs && TooLate(states[m].runs[r], d, id))
    && (forall i :: m <= i <= n ==> d in states[i].running)
  }

  /** Since m the row is there, and no run has missed it but one that had missed it then. */
  ghost predicate NotMissed(states: seq<System>, m: nat, n: nat, d: string, id: nat)
    requires m <= n < |states|
  {
    && (d, id) in states[n].rows
    && ((exists r :: r in states[n].runs && TooLate(states[n].runs[r], d, id)) ==> LateSince(states, m, n, d, id))
  }

  lemma {:induction false} MissedOnlyBefore(states: seq<System>, steps: seq<Step>, m: nat, n: nat, d: string, id: nat)
    requires IsRun(states, steps) && m <= n <= |steps| && (d, id) in states[m].rows
    ensures TriedBetween(states, steps, m, n, d, id) || NotMissed(states, m, n, d, id)
    decreases n
  {
    hide NotMissed, OneRun, Serves;
    NeverTwoRuns(states, steps, n);
    if m == n {
      LateAtOnce(states, m, d, id);
    } else {
      MissedOnlyBefore(states, steps, m, n - 1, d, id);
      if TriedBetween(states, steps, m, n - 1, d, id) {
        var i :| m <= i < n - 1 && steps[i].Try? && steps[i].id == id && steps[i].r in states[i].runs
                 && Serves(states[i].runs[steps[i].r], d);
        assert TriedBetween(states, steps, m, n, d, id);
      } else if !TriedBetween(states, steps, m, n, d, id) {
        StillNotMissed(states, m, n, steps[n - 1], d, id);
      }
    }
  }

  lemma StillNotMissed(states: seq<System>, m: nat, n: nat, step: Step, d: string, id: nat)
    requires m < n < |states| && Enabled(states[n - 1], step) && states[n] == Apply(states[n - 1], step)
    requires OneRun(states[n])
    requires NotMissed(states, m, n - 1, d, id)
    requires !(step.Try? && step.id == id && step.r in states[n - 1].runs && Serves(states[n - 1].runs[step.r], d))
    ensures NotMissed(states, m, n, d, id)
  {
    hide Apply, OneRun;
    RowStays(states[n - 1], step, d, id);
    if r :| r in states[n].runs && TooLate(states[n].runs[r], d, id) {
      MissedStep(states[n - 1], step, d, id, r);
      RunningNow(states[n], r, d);
    }
  }

  lemma RowStays(s: System, step: Step, d: string, id: nat)
    requires Enabled(s, step) && (d, id) in s.rows
    requires !(step.Try? && step.id == id && Serves(s.runs[step.r], d))
    ensures (d, id) in Apply(s, step).rows
  {
  }

  lemma RunningNow(s: System, r: nat, d: string)
    requires OneRun(s) && r in s.runs && Serves(s.runs[r], d)
    ensures d in s.running
  {
  }

  lemma LateAtOnce(states: seq<System>, m: nat, d: string, id: nat)
    requires m < |states| && OneRun(states[m]) && (d, id) in states[m].rows
    ensures NotMissed(states, m, m, d, id)
  {
    if r :| r in states[m].runs && TooLate(states[m].runs[r], d, id) {
      assert Serves(states[m].runs[r], d);
    }
  }

  /** A run that misses the row after a step had missed it before: reading the references finds every row there is. */
  lemma MissedStep(s: System, step: Step, d: string, id: nat, r: nat)
    requires Enabled(s, step) && (d, id) in s.rows
    requires r in Apply(s, step).runs && TooLate(Apply(s, step).runs[r], d, id)
    requires !(step.Try? && step.id == id && Serves(s.runs[step.r], d))
    ensures r in s.runs && TooLate(s.runs[r], d, id)
  {
    assert (d, id).1 in RowsOf(s, d);
  }

  /** queueFor, by an enqueue or by the manager, at any later time: whatever happens meanwhile, the row has been
      attempted, or a run will attempt it, or the run that is going on has been going on without it all the time.
      The manager's next round then finds that run ended or still busy. */
  lemma WokenRow(states: seq<System>, steps: seq<Step>, m: nat, n: nat, d: string, id: nat)
    requires IsRun(states, steps) && m <= n < |steps| && (d, id) in states[m].rows
    requires (steps[n].Wake? || steps[n].TickWake?) && steps[n].d == d
    ensures TriedBetween(states, steps, m, n, d, id) || Covered(states[n + 1], d, id) || LateSince(states, m, n, d, id)
  {
    MissedOnlyBefore(states, steps, m, n, d, id);
    NeverTwoRuns(states, steps, n);
    if NotMissed(states, m, n, d, id) {
      WakeCovers(states[n], steps[n], id);
    }
  }

  /** Waking covers a row unless a run of its destination has read its references without it. */
  lemma WakeCovers(s: System, step: Step, id: nat)
    requires OneRun(s) && Enabled(s, step) && (step.Wake? || step.TickWake?)
    ensures Covered(Apply(s, step), step.d, id) <==> !exists r :: r in s.runs && TooLate(s.runs[r], step.d, id)
  {
    var t := Apply(s, step);
    if step.d !in s.running {
      assert WillTry(t.runs[step.g], step.d, id);
    } else {
      var r :| r in s.runs && Serves(s.runs[r], step.d);
      assert WillTry(s.runs[r], step.d, id) || TooLate(s.runs[r], step.d, id);
    }
  }

  /** The manager does wake every destination that had a row when its round began: it stays on the list until then. */
  lemma {:induction false} RoundReaches(states: seq<System>, steps: seq<Step>, m: nat, n: nat, d: string, id: nat)
    requires IsRun(states, steps) && m < n <= |steps| && steps[m].Tick? && (d, id) in states[m].rows
    requires forall i :: m < i < n ==> !(steps[i].TickWake? && steps[i].d == d)
    ensures d in states[n].todo
    decreases n
  {
    if n == m + 1 {
      assert (d, id).0 in states[n].todo;
    } else {
      RoundReaches(states, steps, m, n - 1, d, id);
    }
  }
}
