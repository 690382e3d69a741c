// Writer.Do and Writer.run in sqlite3.go: any number of callers hand tasks to a
// worker goroutine over an unbuffered channel. Every interleaving of their steps.

module Writer {
  import opened Types
  import opened Sums

  /** A caller inside Do: about to load `running`, about to start a worker, blocked on the send,
      blocked on the reply, back. A reply of None is the zero value of a closed channel. */
  datatype Caller<Res> = Ready | Starting | Offering | Waiting | Returned(reply: Option<Res>)

  /** A goroutine in run: about to swap `running`, ranging over the channel, holding a task,
      past the task with its transaction still open, gone. */
  datatype Worker = Spawned | Receiving | Holding(caller: nat) | Committing(caller: nat) | Exited

  /** The reply channel of one call, with its buffer of one. */
  datatype Reply<Res> = Empty | Posted(value: Res) | ClosedEmpty | ClosedPosted(value: Res)

  /** A worker is named after the caller that started it: Do starts at most one.
      `begins` are the calls that leave it to the worker to begin a transaction. */
  datatype System<Db, Res> = System(
    callers: map<nat, Caller<Res>>,
    begins: set<nat>,
    replies: map<nat, Reply<Res>>,
    workers: map<nat, Worker>,
    running: bool,
    db: Db,
    log: seq<nat>)

  /** What the statements of caller c's task that are carried out make of the database, and what it reports. No task
      uses the transaction that was begun for it: each of its statements takes effect at once, whatever it reports. */
  type Tasks<!Db, !Res> = (nat, Db) -> (Db, Res)

  datatype Step =
    | Load(c: nat)            // if !w.running.Load()
    | Go(c: nat)              // go w.run()
    | Swap(w: nat)            // CompareAndSwap(false, true)
    | Send(c: nat, w: nat)    // w.todo <- task, received by worker w
    | BeginFails(w: nat)      // nothing is posted; close(task.wait)
    | RunTask(w: nat)         // task.wait <- task.f(txn)
    | Close(w: nat)           // commit or roll back an empty transaction; close(task.wait)
    | Receive(c: nat)         // <-task.wait

  predicate Enabled<Db, Res>(s: System<Db, Res>, step: Step) {
    match step
    case Load(c) => c in s.callers && s.callers[c].Ready?
    case Go(c) => c in s.callers && s.callers[c].Starting?
    case Swap(w) => w in s.workers && s.workers[w].Spawned?
    case Send(c, w) => c in s.callers && s.callers[c].Offering? && w in s.workers && s.workers[w].Receiving?
    case BeginFails(w) => w in s.workers && s.workers[w].Holding? && s.workers[w].caller in s.begins
    case RunTask(w) => w in s.workers && s.workers[w].Holding?
    case Close(w) => w in s.workers && s.workers[w].Committing? && s.workers[w].caller in s.replies
    case Receive(c) => c in s.callers && c in s.replies && s.callers[c].Waiting? && !s.replies[c].Empty?
  }

  function Closed<Res>(r: Reply<Res>): Reply<Res> {
    match r
    case Empty => ClosedEmpty
    case Posted(v) => ClosedPosted(v)
    case _ => r
  }

  function ValueOf<Res>(r: Reply<Res>): Option<Res> {
    match r
    case Posted(v) => Some(v)
    case ClosedPosted(v) => Some(v)
    case _ => None
  }

  function Apply<Db, Res>(tasks: Tasks<Db, Res>, s: System<Db, Res>, step: Step): System<Db, Res>
    requires Enabled(s, step)
  {
    match step
    case Load(c) => s.(callers := s.callers[c := if s.running then Offering else Starting])
    case Go(c) => s.(callers := s.callers[c := Offering], workers := s.workers[c := Spawned])
    case Swap(w) => s.(workers := s.workers[w := if s.running then Exited else Receiving], running := true)
    case Send(c, w) => s.(callers := s.callers[c := Waiting], workers := s.workers[w := Holding(c)])
    case BeginFails(w) =>
      s.(workers := s.workers[w := Receiving], replies := s.replies[s.workers[w].caller := ClosedEmpty])
    case RunTask(w) =>
      var c := s.workers[w].caller;
      var (db, res) := tasks(c, s.db);
      s.(workers := s.workers[w := Committing(c)], replies := s.replies[c := Posted(res)], db := db, log := s.log + [c])
    case Close(w) =>
      var c := s.workers[w].caller;
      s.(workers := s.workers[w := Receiving], replies := s.replies[c := Closed(s.replies[c])])
    case Receive(c) => s.(callers := s.callers[c := Returned(ValueOf(s.replies[c]))])
  }

  // ----- The serial history -----

  /** The database after running the tasks of a list one after another. */
  function Replay<Db, Res>(tasks: Tasks<Db, Res>, db: Db, log: seq<nat>): Db {
    if log == [] then db else tasks(log[|log| - 1], Replay(tasks, db, log[..|log| - 1])).0
  }

  function SerialResult<Db, Res>(tasks: Tasks<Db, Res>, db: Db, log: seq<nat>, i: nat): Res
    requires i < |log|
  {
    tasks(log[i], Replay(tasks, db, log[..i])).1
  }

  // ----- What every step keeps -----

  predicate Active(w: Worker) {
    w.Receiving? || w.Holding? || w.Committing?
  }

  ghost predicate HasActive<Db, Res>(s: System<Db, Res>) {
    exists w :: w in s.workers && Active(s.workers[w])
  }

  /** At most one worker loop, and `running` says whether there is one. */
  ghost predicate OneWorker<Db, Res>(s: System<Db, Res>) {
    && (s.running <==> HasActive(s))
    && (forall v, w :: v in s.workers && w in s.workers && Active(s.workers[v]) && Active(s.workers[w]) ==> v == w)
  }

  /** A caller blocked on the send has a worker, or one on the way. */
  ghost predicate Served<Db, Res>(s: System<Db, Res>) {
    && (forall c :: c in s.callers && s.callers[c].Offering? ==>
          s.running || exists w :: w in s.workers && s.workers[w].Spawned?)
    && (forall w :: w in s.workers ==> w in s.callers && !s.callers[w].Ready? && !s.callers[w].Starting?)
  }

  ghost predicate Held<Db, Res>(s: System<Db, Res>, c: nat) {
    exists w :: w in s.workers && s.workers[w] == Holding(c)
  }

  /** One call, its reply channel and the log agree. */
  ghost predicate CallOk<Db, Res>(s: System<Db, Res>, c: nat)
    requires c in s.callers && c in s.replies
  {
    && (c in s.log <==> ValueOf(s.replies[c]).Some?)
    && (s.replies[c].ClosedEmpty? ==> c in s.begins)
    && match s.callers[c]
       case Waiting => s.replies[c].Empty? ==> Held(s, c)
       case Returned(reply) => !s.replies[c].Empty? && reply == ValueOf(s.replies[c])
       case _ => s.replies[c].Empty?
  }

  /** The worker's current call is blocked on the reply it has yet to get. */
  predicate TaskOk<Db, Res>(s: System<Db, Res>, w: nat)
    requires w in s.workers
  {
    match s.workers[w]
    case Holding(c) => c in s.callers && c in s.replies && s.callers[c].Waiting? && s.replies[c].Empty?
    case Committing(c) => c in s.callers && c in s.replies && s.replies[c].Posted?
    case _ => true
  }

  ghost predicate CallsOk<Db, Res>(s: System<Db, Res>) {
    && s.callers.Keys == s.replies.Keys
    && (forall c :: c in s.callers ==> CallOk(s, c))
    && (forall w :: w in s.workers ==> TaskOk(s, w))
  }

  /** The i-th task got the result it gets when the tasks run one after another. */
  predicate GotOwnResult<Db(!new), Res(==)>(tasks: Tasks<Db, Res>, db0: Db, s: System<Db, Res>, i: nat)
    requires i < |s.log|
  {
    s.log[i] in s.replies && ValueOf(s.replies[s.log[i]]) == Some(SerialResult(tasks, db0, s.log, i))
  }

  /** The log lists each task that ran once, and database and replies are those of running it serially. */
  ghost predicate Serial<Db(!new), Res>(tasks: Tasks<Db, Res>, db0: Db, s: System<Db, Res>) {
    && s.db == Replay(tasks, db0, s.log)
    && AllDifferent(s.log)
    && (forall i :: 0 <= i < |s.log| ==> GotOwnResult(tasks, db0, s, i))
  }

  ghost predicate Inv<Db(!new), Res>(tasks: Tasks<Db, Res>, db0: Db, s: System<Db, Res>) {
    OneWorker(s) && Served(s) && CallsOk(s) && Serial(tasks, db0, s)
  }

  lemma StepOneWorker<Db, Res>(tasks: Tasks<Db, Res>, s: System<Db, Res>, step: Step)
    requires OneWorker(s) && Served(s) && Enabled(s, step)
    ensures OneWorker(Apply(tasks, s, step))
  {
    var t := Apply(tasks, s, step);
    if v :| v in s.workers && Active(s.workers[v]) {
      assert v in t.workers && Active(t.workers[v]);
    }
    if step.Swap? && !s.running {
      assert Active(t.workers[step.w]);
    }
  }

  lemma StepServed<Db, Res>(tasks: Tasks<Db, Res>, s: System<Db, Res>, step: Step)
    requires OneWorker(s) && Served(s) && Enabled(s, step)
    ensures Served(Apply(tasks, s, step))
  {
    var t := Apply(tasks, s, step);
    forall c | c in t.callers && t.callers[c].Offering?
      ensures t.running || exists w :: w in t.workers && t.workers[w].Spawned?
    {
      if step.Go? && step.c == c {
        assert t.workers[c].Spawned?;
      } else if !s.running && !(step.Load? && step.c == c) {
        var w :| w in s.workers && s.workers[w].Spawned?;
        assert step.Swap? || t.workers[w].Spawned?;
      }
    }
  }

  /** A call waiting for its reply stays with its worker until the reply is there. */
  lemma StepHeld<Db, Res>(tasks: Tasks<Db, Res>, s: System<Db, Res>, step: Step, c: nat)
    requires Served(s) && Enabled(s, step)
    requires Held(s, c) && Apply(tasks, s, step).callers.Keys == s.callers.Keys
    requires c in Apply(tasks, s, step).replies && Apply(tasks, s, step).replies[c].Empty?
    ensures Held(Apply(tasks, s, step), c)
  {
    var t := Apply(tasks, s, step);
    var w :| w in s.workers && s.workers[w] == Holding(c);
    assert w in t.workers && t.workers[w] == Holding(c);
  }

  lemma WorkerCall<Db, Res>(s: System<Db, Res>, w: nat)
    requires CallsOk(s) && w in s.workers && (s.workers[w].Holding? || s.workers[w].Committing?)
    ensures s.workers[w].caller in s.callers && s.workers[w].caller in s.replies
  {
    assert TaskOk(s, w);
  }

  lemma StepKeys<Db, Res>(tasks: Tasks<Db, Res>, s: System<Db, Res>, step: Step)
    requires CallsOk(s) && Enabled(s, step)
    ensures var t := Apply(tasks, s, step); t.callers.Keys == s.callers.Keys && t.replies.Keys == s.replies.Keys
  {
    if step.BeginFails? || step.RunTask? || step.Close? {
      WorkerCall(s, step.w);
    }
  }

  lemma StepCall<Db, Res>(tasks: Tasks<Db, Res>, s: System<Db, Res>, step: Step, c: nat)
    requires Served(s) && CallsOk(s) && Enabled(s, step) && c in s.callers
    ensures var t := Apply(tasks, s, step); c in t.callers && c in t.replies && CallOk(t, c)
  {
    hide Held, Served;
    StepKeys(tasks, s, step);
    var t := Apply(tasks, s, step);
    assert CallOk(s, c);
    if step.BeginFails? || step.RunTask? || step.Close? {
      assert TaskOk(s, step.w);
    }
    if t.callers[c].Waiting? && t.replies[c].Empty? {
      if step.Send? && step.c == c {
        SentIsHeld(tasks, s, step);
      } else {
        StepHeld(tasks, s, step, c);
      }
    }
  }

  lemma SentIsHeld<Db, Res>(tasks: Tasks<Db, Res>, s: System<Db, Res>, step: Step)
    requires Enabled(s, step) && step.Send?
    ensures Held(Apply(tasks, s, step), step.c)
  {
    assert Apply(tasks, s, step).workers[step.w] == Holding(step.c);
  }

  lemma StepTask<Db, Res>(tasks: Tasks<Db, Res>, s: System<Db, Res>, step: Step, w: nat)
    requires OneWorker(s) && Served(s) && CallsOk(s) && Enabled(s, step)
    requires w in Apply(tasks, s, step).workers
    ensures TaskOk(Apply(tasks, s, step), w)
  {
    hide Held;
    if !(step.Go? && step.c == w) {
      assert TaskOk(s, w);
      if step.Send? {
        assert CallOk(s, step.c);
      } else if step.BeginFails? || step.RunTask? || step.Close? {
        assert w != step.w ==> !Active(s.workers[w]);
      }
    }
  }

  lemma StepCalls<Db, Res>(tasks: Tasks<Db, Res>, s: System<Db, Res>, step: Step)
    requires OneWorker(s) && Served(s) && CallsOk(s) && Enabled(s, step)
    ensures CallsOk(Apply(tasks, s, step))
  {
    hide OneWorker, Served, CallOk, TaskOk, Apply;
    StepKeys(tasks, s, step);
    var t := Apply(tasks, s, step);
    forall c | c in t.callers ensures CallOk(t, c) {
      StepCall(tasks, s, step, c);
    }
    forall w | w in t.workers ensures TaskOk(t, w) {
      StepTask(tasks, s, step, w);
    }
  }

  // ----- Serial history -----

  lemma StepDb<Db(!new), Res>(tasks: Tasks<Db, Res>, db0: Db, s: System<Db, Res>, step: Step)
    requires s.db == Replay(tasks, db0, s.log) && Enabled(s, step)
    ensures Apply(tasks, s, step).db == Replay(tasks, db0, Apply(tasks, s, step).log)
  {
    var t := Apply(tasks, s, step);
    if step.RunTask? {
      assert t.log[..|t.log| - 1] == s.log;
    }
  }

  /** What the log records is never rewritten, and a reply that is there is never changed. */
  lemma StepResults<Db(!new), Res>(tasks: Tasks<Db, Res>, db0: Db, s: System<Db, Res>, step: Step, i: nat)
    requires OneWorker(s) && CallsOk(s) && Enabled(s, step)
    requires i < |s.log| && GotOwnResult(tasks, db0, s, i)
    ensures i < |Apply(tasks, s, step).log| && GotOwnResult(tasks, db0, Apply(tasks, s, step), i)
  {
    hide Replay, Held;
    var t := Apply(tasks, s, step);
    assert t.log[..i] == s.log[..i] && t.log[i] == s.log[i];
    if step.BeginFails? || step.RunTask? || step.Close? {
      assert TaskOk(s, step.w);
    }
  }

  lemma NewResult<Db(!new), Res>(tasks: Tasks<Db, Res>, db0: Db, s: System<Db, Res>, step: Step)
    requires CallsOk(s) && s.db == Replay(tasks, db0, s.log) && Enabled(s, step) && step.RunTask?
    ensures var t := Apply(tasks, s, step);
      t.log == s.log + [s.workers[step.w].caller] && t.log[|s.log|] !in s.log && GotOwnResult(tasks, db0, t, |s.log|)
  {
    hide Replay, Held;
    var t := Apply(tasks, s, step);
    var c := s.workers[step.w].caller;
    assert TaskOk(s, step.w) && CallOk(s, c);
    assert t.log[..|s.log|] == s.log;
  }

  lemma StepSerial<Db(!new), Res>(tasks: Tasks<Db, Res>, db0: Db, s: System<Db, Res>, step: Step)
    requires Inv(tasks, db0, s) && Enabled(s, step)
    ensures Serial(tasks, db0, Apply(tasks, s, step))
  {
    hide OneWorker, Served, CallsOk, Replay, GotOwnResult;
    var t := Apply(tasks, s, step);
    StepDb(tasks, db0, s, step);
    if step.RunTask? {
      NewResult(tasks, db0, s, step);
    }
    forall i | 0 <= i < |t.log| ensures GotOwnResult(tasks, db0, t, i) {
      if i < |s.log| {
        StepResults(tasks, db0, s, step, i);
      }
    }
  }

  lemma StepInv<Db(!new), Res>(tasks: Tasks<Db, Res>, db0: Db, s: System<Db, Res>, step: Step)
    requires Inv(tasks, db0, s) && Enabled(s, step)
    ensures Inv(tasks, db0, Apply(tasks, s, step))
  {
    hide OneWorker, Served, CallsOk, Serial, Apply;
    StepOneWorker(tasks, s, step);
    StepServed(tasks, s, step);
    StepCalls(tasks, s, step);
    StepSerial(tasks, db0, s, step);
  }

  // ----- Every run -----

  /** Nobody has called yet and no worker has been started. */
  predicate Initial<Db, Res>(s: System<Db, Res>) {
    && !s.running && s.log == [] && s.workers == map[] && s.callers.Keys == s.replies.Keys
    && (forall c :: c in s.callers ==> s.callers[c].Ready? && s.replies[c].Empty?)
  }

  ghost predicate IsRun<Db(!new), Res(!new)>(tasks: Tasks<Db, Res>, states: seq<System<Db, Res>>, steps: seq<Step>) {
    && |states| == |steps| + 1 && Initial(states[0])
    && (forall i :: 0 <= i < |steps| ==>
          Enabled(states[i], steps[i]) && states[i + 1] == Apply(tasks, states[i], steps[i]))
  }

  lemma {:induction false} RunKeepsInv<Db(!new), Res(!new)>(tasks: Tasks<Db, Res>, states: seq<System<Db, Res>>,
                                                            steps: seq<Step>, n: nat)
    requires IsRun(tasks, states, steps) && n <= |steps|
    ensures Inv(tasks, states[0].db, states[n])
  {
    if n == 0 {
      assert Replay(tasks, states[0].db, []) == states[0].db;
    } else {
      hide Inv, Apply, Enabled, Initial;
      RunKeepsInv(tasks, states, steps, n - 1);
      StepInv(tasks, states[0].db, states[n - 1], steps[n - 1]);
    }
  }

  /** Returned with a value: ran, once, and this is what it reports when the tasks run in log order.
      Returned without: its transaction could not begin and it never ran. Not yet sent: has not run. */
  ghost predicate Outcome<Db(!new), Res>(tasks: Tasks<Db, Res>, db0: Db, s: System<Db, Res>, c: nat)
    requires c in s.callers
  {
    match s.callers[c]
    case Returned(Some(v)) => exists i :: 0 <= i < |s.log| && s.log[i] == c && v == SerialResult(tasks, db0, s.log, i)
    case Returned(None) => c in s.begins && c !in s.log
    case Waiting => true
    case _ => c !in s.log
  }

  lemma CallOutcome<Db(!new), Res>(tasks: Tasks<Db, Res>, db0: Db, s: System<Db, Res>, c: nat)
    requires CallsOk(s) && Serial(tasks, db0, s) && c in s.callers
    ensures Outcome(tasks, db0, s, c)
  {
    hide Held, SerialResult;
    assert CallOk(s, c);
    if c in s.log {
      var i :| 0 <= i < |s.log| && s.log[i] == c;
      assert GotOwnResult(tasks, db0, s, i);
    }
  }

  /** Whatever the interleaving, the calls behave like a serial execution of their tasks. */
  lemma EveryRunIsSerial<Db(!new), Res(!new)>(tasks: Tasks<Db, Res>, states: seq<System<Db, Res>>, steps: seq<Step>,
                                              n: nat)
    requires IsRun(tasks, states, steps) && n <= |steps|
    ensures OneWorker(states[n])
    ensures AllDifferent(states[n].log)
    ensures forall c :: c in states[n].callers ==> Outcome(tasks, states[0].db, states[n], c)
    ensures states[n].db == Replay(tasks, states[0].db, states[n].log)
  {
    RunKeepsInv(tasks, states, steps, n);
    forall c | c in states[n].callers ensures Outcome(tasks, states[0].db, states[n], c) {
      CallOutcome(tasks, states[0].db, states[n], c);
    }
  }

  /** The log only grows, at its end. */
  lemma {:induction false} LogGrows<Db(!new), Res(!new)>(tasks: Tasks<Db, Res>, states: seq<System<Db, Res>>,
                                                         steps: seq<Step>, m: nat, n: nat)
    requires IsRun(tasks, states, steps) && m <= n <= |steps|
    ensures states[m].log <= states[n].log
    decreases n
  {
    if m < n {
      LogGrows(tasks, states, steps, m, n - 1);
      assert states[n - 1].log <= Apply(tasks, states[n - 1], steps[n - 1]).log;
    }
  }

  /** The serial order respects real time: a call that returned before another one started ran before it. */
  lemma RealTimeOrder<Db(!new), Res(!new)>(tasks: Tasks<Db, Res>, states: seq<System<Db, Res>>, steps: seq<Step>,
                                          m: nat, n: nat, a: nat, b: nat)
    requires IsRun(tasks, states, steps) && m <= n <= |steps|
    requires a in states[m].callers && states[m].callers[a].Returned? && states[m].callers[a].reply.Some?
    requires b in states[m].callers && states[m].callers[b].Ready?
    ensures var log := states[n].log;
      forall i, j :: 0 <= i < |log| && 0 <= j < |log| && log[i] == a && log[j] == b ==> i < j
  {
    hide Inv, SerialResult;
    EveryRunIsSerial(tasks, states, steps, m);
    EveryRunIsSerial(tasks, states, steps, n);
    LogGrows(tasks, states, steps, m, n);
    assert Outcome(tasks, states[0].db, states[m], a) && Outcome(tasks, states[0].db, states[m], b);
    var before, after := states[m].log, states[n].log;
    var k :| 0 <= k < |before| && before[k] == a;
    assert after[k] == a;
    assert forall j :: 0 <= j < |before| ==> after[j] == before[j];
  }

  /** Whatever a task reports, an error included, all it did to the database is there no later than its reply, and
      stays: neither the commit nor the rollback that follows changes anything. */
  lemma AnsweredIsVisible<Db(!new), Res(!new)>(tasks: Tasks<Db, Res>, states: seq<System<Db, Res>>, steps: seq<Step>,
                                              m: nat, n: nat, c: nat)
    requires IsRun(tasks, states, steps) && m <= n <= |steps|
    requires c in states[m].replies && ValueOf(states[m].replies[c]).Some?
    ensures var s := states[n];
      exists i :: 0 <= i < |s.log| && s.log[i] == c
                  && ValueOf(states[m].replies[c]) == Some(SerialResult(tasks, states[0].db, s.log, i))
    ensures states[n].db == Replay(tasks, states[0].db, states[n].log)
    ensures forall i :: 0 <= i < |steps| && states[i + 1].db != states[i].db ==> steps[i].RunTask?
  {
    hide Replay;
    RunKeepsInv(tasks, states, steps, m);
    RunKeepsInv(tasks, states, steps, n);
    LogGrows(tasks, states, steps, m, n);
    assert CallOk(states[m], c);
    var i :| 0 <= i < |states[m].log| && states[m].log[i] == c;
    assert GotOwnResult(tasks, states[0].db, states[m], i);
    assert states[n].log[i] == c && states[n].log[..i] == states[m].log[..i];
  }

  // ----- Nobody is left waiting -----

  lemma WorkerCanStep<Db, Res>(s: System<Db, Res>, c: nat)
    requires OneWorker(s) && CallsOk(s) && s.running && c in s.callers && s.callers[c].Offering?
    ensures exists step :: Enabled(s, step)
  {
    hide CallOk;
    var w :| w in s.workers && Active(s.workers[w]);
    assert TaskOk(s, w);
    assert Enabled(s, Send(c, w)) || Enabled(s, RunTask(w)) || Enabled(s, Close(w));
  }

  lemma StarterCanStep<Db, Res>(s: System<Db, Res>, c: nat)
    requires Served(s) && !s.running && c in s.callers && s.callers[c].Offering?
    ensures exists step :: Enabled(s, step)
  {
    var w :| w in s.workers && s.workers[w].Spawned?;
    assert Enabled(s, Swap(w));
  }

  lemma ReplyCanCome<Db, Res>(s: System<Db, Res>, c: nat)
    requires c in s.callers && c in s.replies && CallOk(s, c) && s.callers[c].Waiting?
    ensures exists step :: Enabled(s, step)
  {
    if s.replies[c].Empty? {
      var w :| w in s.workers && s.workers[w] == Holding(c);
      assert Enabled(s, RunTask(w));
    } else {
      assert Enabled(s, Receive(c));
    }
  }

  /** As long as some call has not returned, some step can happen. */
  lemma NeverStuck<Db(!new), Res>(s: System<Db, Res>, c: nat)
    requires OneWorker(s) && Served(s) && CallsOk(s) && c in s.callers && !s.callers[c].Returned?
    ensures exists step :: Enabled(s, step)
  {
    hide OneWorker, Served, TaskOk, CallOk;
    match s.callers[c]
    case Ready => assert Enabled(s, Load(c));
    case Starting => assert Enabled(s, Go(c));
    case Offering =>
      if s.running {
        WorkerCanStep(s, c);
      } else {
        StarterCanStep(s, c);
      }
    case Waiting => ReplyCanCome(s, c);
  }

  function CallerWork<Res>(c: Caller<Res>): nat {
    match c
    case Ready => 9
    case Starting => 8
    case Offering => 6
    case Waiting => 2
    case Returned(_) => 0
  }

  function WorkerWork(w: Worker): nat {
    match w
    case Spawned => 1
    case Receiving => 0
    case Holding(_) => 3
    case Committing(_) => 1
    case Exited => 0
  }

  ghost function CallerWorks<Db, Res>(s: System<Db, Res>): map<nat, nat> {
    map c | c in s.callers :: CallerWork(s.callers[c])
  }

  ghost function WorkerWorks<Db, Res>(s: System<Db, Res>): map<nat, nat> {
    map w | w in s.workers :: WorkerWork(s.workers[w])
  }

  /** An upper bound on the steps still to come. */
  ghost function Remaining<Db, Res>(s: System<Db, Res>): nat {
    Sum(CallerWorks(s)) + Sum(WorkerWorks(s))
  }

  lemma SumChanged(before: map<nat, nat>, after: map<nat, nat>, k: nat, v: nat)
    requires k in before && after == before[k := v]
    ensures Sum(after) == Sum(before) - before[k] + v
  {
    SumSplit(before, k);
    SumSplit(after, k);
    assert after - {k} == before - {k};
  }

  lemma StepCallerWork<Db, Res>(tasks: Tasks<Db, Res>, s: System<Db, Res>, step: Step)
    requires Enabled(s, step)
    ensures var t := Apply(tasks, s, step);
      Sum(CallerWorks(t)) == Sum(CallerWorks(s)) - (match step
                                                    case Load(_) => if s.running then 3 else 1
                                                    case Go(_) => 2
                                                    case Send(_, _) => 4
                                                    case Receive(_) => 2
                                                    case _ => 0)
  {
    hide Sum;
    var t := Apply(tasks, s, step);
    var before, after := CallerWorks(s), CallerWorks(t);
    if step.Load? || step.Go? || step.Send? || step.Receive? {
      SumChanged(before, after, step.c, CallerWork(t.callers[step.c]));
    } else {
      assert before == after;
    }
  }

  lemma StepWorkerWork<Db, Res>(tasks: Tasks<Db, Res>, s: System<Db, Res>, step: Step)
    requires Served(s) && Enabled(s, step)
    ensures var t := Apply(tasks, s, step);
      Sum(WorkerWorks(t)) == Sum(WorkerWorks(s)) + (match step
                                                    case Go(_) => 1
                                                    case Send(_, _) => 3
                                                    case Swap(_) => -1
                                                    case BeginFails(_) => -3
                                                    case RunTask(_) => -2
                                                    case Close(_) => -1
                                                    case _ => 0)
  {
    hide Sum;
    var t := Apply(tasks, s, step);
    var before, after := WorkerWorks(s), WorkerWorks(t);
    if step.Load? || step.Receive? {
      assert before == after;
    } else if step.Go? {
      assert after == before[step.c := 1];
      SumAdd(before, step.c, 1);
    } else {
      SumChanged(before, after, step.w, WorkerWork(t.workers[step.w]));
    }
  }

  /** Every step uses up some of what remains, so a run of n calls has at most 9 n steps. */
  lemma {:induction false} RunsAreBounded<Db(!new), Res(!new)>(tasks: Tasks<Db, Res>, states: seq<System<Db, Res>>,
                                                               steps: seq<Step>, n: nat)
    requires IsRun(tasks, states, steps) && n <= |steps|
    ensures Remaining(states[n]) + n <= Remaining(states[0])
  {
    if n > 0 {
      RunsAreBounded(tasks, states, steps, n - 1);
      RunKeepsInv(tasks, states, steps, n - 1);
      hide Inv, Apply, Initial, Sum, CallsOk, Served, CallerWorks, WorkerWorks;
      StepCallerWork(tasks, states[n - 1], steps[n - 1]);
      StepWorkerWork(tasks, states[n - 1], steps[n - 1]);
    }
  }

  lemma {:induction false} SumOfNines(m: map<nat, nat>)
    requires forall k :: k in m ==> m[k] == 9
    ensures Sum(m) == 9 * |m|
    decreases |m|
  {
    if k :| k in m {
      SumSplit(m, k);
      assert (m - {k}).Keys == m.Keys - {k};
      SumOfNines(m - {k});
    }
  }

  /** A run ends after at most nine steps a call, and if it cannot go on every call has returned. */
  lemma EveryCallReturns<Db(!new), Res(!new)>(tasks: Tasks<Db, Res>, states: seq<System<Db, Res>>, steps: seq<Step>)
    requires IsRun(tasks, states, steps)
    ensures |steps| <= 9 * |states[0].callers|
    ensures var s := states[|steps|];
      (forall step :: !Enabled(s, step)) ==> forall c :: c in s.callers ==> s.callers[c].Returned?
  {
    hide CallsOk, Served, OneWorker, Serial;
    var s := states[|steps|];
    RunsAreBounded(tasks, states, steps, |steps|);
    var works := CallerWorks(states[0]);
    assert works.Keys == states[0].callers.Keys;
    SumOfNines(works);
    assert WorkerWorks(states[0]) == map[];
    RunKeepsInv(tasks, states, steps, |steps|);
    forall c | c in s.callers && !s.callers[c].Returned? ensures exists step :: Enabled(s, step) {
      NeverStuck(s, c);
    }
  }
}
