/** How MemTesterNX keeps its workers in step: main hands out jobs and collects reports through
    two shared arrays of ints, and any interleaving of their reads and writes may happen.
    Jobs are numbered from -1 (the stuck address test); -2 says "get ready". */
module Handshake {
  import opened Basics

  // The number of workers, and of the tests after the stuck address test.
  datatype Config = Config(n: nat, tests: nat)

  // The tables of tests are not empty.
  predicate ConfigOk(c: Config) {
    c.tests >= 1
  }

  const READY := -2
  const STUCK_ADDRESS := -1

  // Where a worker is: in its first wait, waiting for a job, in a test, or returned.
  datatype Worker = Ready | Waiting(job: int) | Running(job: int) | Stopped

  // Where main is: about to write testJobId[j], to read testWorkerReport[j], to clear it, or out.
  datatype Main =
    | SetReady(j: nat)
    | SetJob(k: int, j: nat)
    | Poll(k: int, j: nat)
    | Clear(k: int, j: nat)
    | Failed(k: int, j: nat)

  // passed[d] are the jobs that returned 0 in worker d, announced the ones main called ok.
  datatype State = State(
    testJobId: seq<int>, testWorkerReport: seq<int>, workers: seq<Worker>, main: Main,
    passed: seq<seq<int>>, announced: seq<int>)

  // One atomic step: main's next access, or worker d's, where a running test returns 0 or not.
  datatype Event = MainStep | WorkerStep(d: nat, ok: bool)

  predicate Shape(c: Config, s: State) {
    && |s.testJobId| == |s.testWorkerReport| == |s.workers| == |s.passed| == c.n
    && (s.main.Clear? || s.main.Failed? ==> s.main.j < c.n)
  }

  function Initial(c: Config): (s: State)
    ensures Shape(c, s)
  {
    State(seq(c.n, _ => 0), seq(c.n, _ => 0), seq(c.n, _ => Ready), SetReady(0), seq(c.n, _ => []), [])
  }

  // The job after k: the tests in order, then the stuck address test again.
  function NextJob(c: Config, k: int): int {
    if k + 1 < c.tests then k + 1 else STUCK_ADDRESS
  }

  function DoMain(c: Config, s: State): (r: State)
    requires Shape(c, s)
    ensures Shape(c, r)
  {
    match s.main
    case SetReady(j) =>
      if j < c.n then s.(testJobId := s.testJobId[j := READY], main := SetReady(j + 1))
      else s.(main := SetJob(STUCK_ADDRESS, 0))
    case SetJob(k, j) =>
      if j < c.n then s.(testJobId := s.testJobId[j := k], main := SetJob(k, j + 1))
      else s.(main := Poll(k, 0))
    case Poll(k, j) =>
      if j >= c.n then
        s.(announced := s.announced + [k], main := if k + 1 < c.tests then SetJob(k + 1, 0) else SetReady(0))
      else if s.testWorkerReport[j] == -1 then s.(main := Failed(k, j))
      else if s.testWorkerReport[j] == 1 then s.(main := Clear(k, j))
      else s
    case Clear(k, j) => s.(testWorkerReport := s.testWorkerReport[j := 0], main := Poll(k, j + 1))
    case Failed(_, _) => s
  }

  function DoWorker(c: Config, s: State, d: nat, ok: bool): (r: State)
    requires Shape(c, s) && d < c.n
    ensures Shape(c, r)
  {
    match s.workers[d]
    case Ready => if s.testJobId[d] == READY then s.(workers := s.workers[d := Waiting(STUCK_ADDRESS)]) else s
    case Waiting(k) => if s.testJobId[d] == k then s.(workers := s.workers[d := Running(k)]) else s
    case Running(k) =>
      if ok then
        s.(testWorkerReport := s.testWorkerReport[d := 1], workers := s.workers[d := Waiting(NextJob(c, k))],
           passed := s.passed[d := s.passed[d] + [k]])
      else s.(testWorkerReport := s.testWorkerReport[d := -1], workers := s.workers[d := Stopped])
    case Stopped => s
  }

  function Do(c: Config, s: State, e: Event): (r: State)
    requires Shape(c, s)
    ensures Shape(c, r)
  {
    match e
    case MainStep => DoMain(c, s)
    case WorkerStep(d, ok) => if d < c.n then DoWorker(c, s, d, ok) else s
  }

  function Run(c: Config, s: State, schedule: seq<Event>): (r: State)
    requires Shape(c, s)
    ensures Shape(c, r)
  {
    if schedule == [] then s
    else Do(c, Run(c, s, schedule[..|schedule| - 1]), schedule[|schedule| - 1])
  }

  // ----- the invariant --------------------------------------------------------------------

  // Worker d has yet to start job k.
  predicate Before(c: Config, s: State, d: nat, k: int)
    requires Shape(c, s) && d < c.n
  {
    && (s.workers[d] == Waiting(k) || (s.workers[d] == Ready && s.announced == [] && k == STUCK_ADDRESS))
    && s.testWorkerReport[d] == 0 && s.passed[d] == s.announced
  }

  predicate Working(c: Config, s: State, d: nat, k: int)
    requires Shape(c, s) && d < c.n
  {
    s.workers[d] == Running(k) && s.testWorkerReport[d] == 0 && s.passed[d] == s.announced
  }

  predicate Broken(c: Config, s: State, d: nat)
    requires Shape(c, s) && d < c.n
  {
    s.workers[d] == Stopped && s.testWorkerReport[d] == -1 && s.passed[d] == s.announced
  }

  // Worker d has passed job k; the report is still there, or taken.
  predicate Passed(c: Config, s: State, d: nat, k: int, report: int)
    requires Shape(c, s) && d < c.n
  {
    s.workers[d] == Waiting(NextJob(c, k)) && s.testWorkerReport[d] == report && s.passed[d] == s.announced + [k]
  }

  predicate During(c: Config, s: State, d: nat, k: int)
    requires Shape(c, s) && d < c.n
  {
    Before(c, s, d, k) || Working(c, s, d, k) || Broken(c, s, d) || Passed(c, s, d, k, 1)
  }

  // The i-th job of a run.
  function Plan(c: Config, i: nat): int {
    i % (c.tests + 1) - 1
  }

  predicate WorkerInvariant(c: Config, s: State, d: nat)
    requires Shape(c, s) && d < c.n
  {
    var job := s.testJobId[d];
    match s.main
    case SetReady(j) =>
      && Before(c, s, d, STUCK_ADDRESS)
      && job == if d < j then READY else if s.announced == [] then 0 else c.tests - 1
    case SetJob(k, j) =>
      if d < j then During(c, s, d, k) && job == k
      else Before(c, s, d, k) && job == k - 1
    case Poll(k, j) => job == k && if d < j then Passed(c, s, d, k, 0) else During(c, s, d, k)
    case Clear(k, j) =>
      && job == k
      && if d < j then Passed(c, s, d, k, 0) else if d == j then Passed(c, s, d, k, 1) else During(c, s, d, k)
    case Failed(k, j) =>
      && job == k
      && if d < j then Passed(c, s, d, k, 0) else if d == j then Broken(c, s, d) else During(c, s, d, k)
  }

  predicate MainInvariant(c: Config, s: State) {
    && (forall i :: 0 <= i < |s.announced| ==> s.announced[i] == Plan(c, i))
    && s.main.j <= c.n
    && Plan(c, |s.announced|) == if s.main.SetReady? then STUCK_ADDRESS else s.main.k
  }

  ghost predicate Invariant(c: Config, s: State) {
    && Shape(c, s)
    && MainInvariant(c, s)
    && forall d :: 0 <= d < c.n ==> WorkerInvariant(c, s, d)
  }

  lemma InitialInvariant(c: Config)
    requires ConfigOk(c)
    ensures Invariant(c, Initial(c))
  {
  }

  lemma PlanStep(c: Config, i: nat)
    requires ConfigOk(c)
    ensures STUCK_ADDRESS <= Plan(c, i) < c.tests
    ensures Plan(c, i + 1) == NextJob(c, Plan(c, i))
  {
    var m := c.tests + 1;
    var q, r := i / m, i % m;
    if r + 1 < m {
      assert i + 1 == q * m + (r + 1);
      MultipleMod(m, q, r + 1);
    } else {
      assert i + 1 == (q + 1) * m + 0;
      MultipleMod(m, q + 1, 0);
    }
  }

  lemma MainKeepsMain(c: Config, s: State)
    requires ConfigOk(c) && Invariant(c, s)
    ensures MainInvariant(c, DoMain(c, s))
  {
    hide Plan, WorkerInvariant;
    PlanStep(c, |s.announced|);
  }

  lemma MainKeepsWorker(c: Config, s: State, d: nat)
    requires ConfigOk(c) && Invariant(c, s) && d < c.n
    ensures WorkerInvariant(c, DoMain(c, s), d)
  {
    hide Plan;
    PlanStep(c, |s.announced|);
    assert WorkerInvariant(c, s, d);
    if s.main.Poll? && s.main.j < c.n {
      assert WorkerInvariant(c, s, s.main.j);
    }
  }

  lemma MainKeepsInvariant(c: Config, s: State)
    requires ConfigOk(c) && Invariant(c, s)
    ensures Invariant(c, DoMain(c, s))
  {
    hide Plan, WorkerInvariant, MainInvariant, DoMain;
    MainKeepsMain(c, s);
    forall d: nat | d < c.n ensures WorkerInvariant(c, DoMain(c, s), d) { MainKeepsWorker(c, s, d); }
  }

  lemma WorkerKeepsInvariant(c: Config, s: State, d: nat, ok: bool)
    requires ConfigOk(c) && Invariant(c, s) && d < c.n
    ensures Invariant(c, DoWorker(c, s, d, ok))
  {
    hide Plan;
    PlanStep(c, |s.announced|);
    var r := DoWorker(c, s, d, ok);
    assert WorkerInvariant(c, s, d);
    forall e: nat | e < c.n ensures WorkerInvariant(c, r, e) {
      assert WorkerInvariant(c, s, e);
    }
  }

  lemma {:induction false} RunKeepsInvariant(c: Config, s: State, schedule: seq<Event>)
    requires ConfigOk(c) && Invariant(c, s)
    ensures Invariant(c, Run(c, s, schedule))
  {
    hide MainInvariant, WorkerInvariant, DoMain, DoWorker;
    if schedule != [] {
      var n := |schedule| - 1;
      RunKeepsInvariant(c, s, schedule[..n]);
      var t := Run(c, s, schedule[..n]);
      MainKeepsInvariant(c, t);
      match schedule[n]
      case MainStep =>
      case WorkerStep(d, ok) => if d < c.n { WorkerKeepsInvariant(c, t, d, ok); }
    }
  }

  // ----- what every interleaving keeps -----------------------------------------------------

  // Main is about to print "ok" for job k.
  predicate Announces(c: Config, s: State, k: int) {
    s.main.Poll? && s.main.k == k && s.main.j >= c.n
  }

  /** When main announces ok for job k, job k has returned 0 in every worker, as its latest job
      and once in this round; no worker is in a test, and every report has been taken. */
  lemma AnnouncedMeansPassed(c: Config, schedule: seq<Event>, k: int, d: nat)
    requires ConfigOk(c) && d < c.n
    requires Announces(c, Run(c, Initial(c), schedule), k)
    ensures var s := Run(c, Initial(c), schedule);
            && s.passed[d] == s.announced + [k]
            && s.workers[d] == Waiting(NextJob(c, k))
            && s.testWorkerReport[d] == 0
  {
    hide Run;
    InitialInvariant(c);
    RunKeepsInvariant(c, Initial(c), schedule);
    assert WorkerInvariant(c, Run(c, Initial(c), schedule), d);
  }

  /** At any time, whatever the workers run is main's current job, a worker has passed exactly
      the announced jobs or the current one beside them, and the announced jobs are the stuck
      address test and then the tests in order, over and over. */
  lemma InStep(c: Config, schedule: seq<Event>, d: nat)
    requires ConfigOk(c) && d < c.n
    ensures var s := Run(c, Initial(c), schedule);
            && (s.workers[d].Running? ==> !s.main.SetReady? && s.workers[d].job == s.main.k)
            && (s.passed[d] == s.announced || (!s.main.SetReady? && s.passed[d] == s.announced + [s.main.k]))
            && (forall i :: 0 <= i < |s.announced| ==> s.announced[i] == Plan(c, i))
            && (!s.main.SetReady? ==> s.main.k == Plan(c, |s.announced|))
  {
    hide Run, Plan;
    InitialInvariant(c);
    RunKeepsInvariant(c, Initial(c), schedule);
    assert WorkerInvariant(c, Run(c, Initial(c), schedule), d);
  }

  /** Main reports an error for worker j only when a test of the current job failed there, and
      after a failed test in any worker main never announces ok again. */
  lemma FailuresAreReported(c: Config, schedule: seq<Event>, more: seq<Event>, d: nat)
    requires ConfigOk(c) && d < c.n
    ensures var s := Run(c, Initial(c), schedule);
            && (s.main.Failed? ==> s.workers[s.main.j] == Stopped && s.passed[s.main.j] == s.announced)
            && (s.workers[d] == Stopped ==> Run(c, s, more).announced == s.announced)
  {
    hide Run, Plan;
    InitialInvariant(c);
    RunKeepsInvariant(c, Initial(c), schedule);
    var s := Run(c, Initial(c), schedule);
    if s.main.Failed? { assert WorkerInvariant(c, s, s.main.j); }
    if s.workers[d] == Stopped { StoppedStops(c, s, more, d); }
  }

  lemma {:induction false} StoppedStops(c: Config, s: State, more: seq<Event>, d: nat)
    requires ConfigOk(c) && Invariant(c, s) && d < c.n && s.workers[d] == Stopped
    ensures var r := Run(c, s, more); r.announced == s.announced && r.workers[d] == Stopped
  {
    hide MainInvariant;
    if more != [] {
      var n := |more| - 1;
      StoppedStops(c, s, more[..n], d);
      RunKeepsInvariant(c, s, more[..n]);
      assert WorkerInvariant(c, Run(c, s, more[..n]), d);
    }
  }

  // ----- progress ---------------------------------------------------------------------------

  // Every worker has got past its first wait.
  ghost predicate Awake(c: Config, s: State)
    requires Shape(c, s)
  {
    forall d :: 0 <= d < c.n ==> s.workers[d] != Ready
  }

  lemma {:induction false} StaysAwake(c: Config, s: State, schedule: seq<Event>)
    requires Shape(c, s) && Awake(c, s)
    ensures Awake(c, Run(c, s, schedule))
  {
    if schedule != [] {
      StaysAwake(c, s, schedule[..|schedule| - 1]);
    }
  }

  // What is left for worker d to do in the current job.
  function WorkerLeft(c: Config, s: State, d: nat): nat
    requires Shape(c, s) && d < c.n
  {
    if s.passed[d] != s.announced then 0
    else match s.workers[d]
      case Ready => 3
      case Waiting(_) => 2
      case Running(_) => 1
      case Stopped => 0
  }

  function WorkersLeft(c: Config, s: State, n: nat): nat
    requires Shape(c, s) && n <= c.n
  {
    if n == 0 then 0 else WorkersLeft(c, s, n - 1) + WorkerLeft(c, s, n - 1)
  }

  function MainLeft(c: Config, s: State): int {
    match s.main
    case SetReady(j) => 4 * c.n - j + 4
    case SetJob(_, j) => 3 * c.n - j + 2
    case Poll(_, j) => 2 * (c.n - j) + 1
    case Clear(_, j) => 2 * (c.n - j)
    case Failed(_, _) => 0
  }

  // How many more steps there can be, other than waiting, before the next announcement.
  function StepsLeft(c: Config, s: State): int
    requires Shape(c, s)
  {
    MainLeft(c, s) + WorkersLeft(c, s, c.n)
  }

  lemma {:induction false} SameWorkersLeft(c: Config, s: State, t: State, n: nat)
    requires Shape(c, s) && Shape(c, t) && n <= c.n
    requires forall d :: 0 <= d < n ==> WorkerLeft(c, s, d) == WorkerLeft(c, t, d)
    ensures WorkersLeft(c, s, n) == WorkersLeft(c, t, n)
  {
    if n > 0 { SameWorkersLeft(c, s, t, n - 1); }
  }

  lemma {:induction false} OneWorkerLess(c: Config, s: State, t: State, n: nat, e: nat)
    requires Shape(c, s) && Shape(c, t) && e < n <= c.n
    requires forall d :: 0 <= d < n && d != e ==> WorkerLeft(c, s, d) == WorkerLeft(c, t, d)
    requires WorkerLeft(c, t, e) < WorkerLeft(c, s, e)
    ensures WorkersLeft(c, t, n) < WorkersLeft(c, s, n)
  {
    if e < n - 1 {
      OneWorkerLess(c, s, t, n - 1, e);
    } else {
      SameWorkersLeft(c, s, t, n - 1);
    }
  }

  lemma MainUsesUp(c: Config, s: State)
    requires ConfigOk(c) && Invariant(c, s)
    requires DoMain(c, s) != s && DoMain(c, s).announced == s.announced
    ensures 0 <= StepsLeft(c, DoMain(c, s)) < StepsLeft(c, s)
  {
    hide Plan, WorkerInvariant;
    MainKeepsMain(c, s);
    SameWorkersLeft(c, s, DoMain(c, s), c.n);
  }

  lemma WorkerUsesUp(c: Config, s: State, d: nat, ok: bool)
    requires ConfigOk(c) && Invariant(c, s) && d < c.n
    requires DoWorker(c, s, d, ok) != s
    ensures 0 <= StepsLeft(c, DoWorker(c, s, d, ok)) < StepsLeft(c, s)
  {
    hide Plan;
    assert WorkerInvariant(c, s, d);
    OneWorkerLess(c, s, DoWorker(c, s, d, ok), c.n, d);
  }

  /** Every step but waiting and announcing uses up one of the steps left. */
  lemma StepUsesUp(c: Config, s: State, e: Event)
    requires ConfigOk(c) && Invariant(c, s)
    requires Do(c, s, e) != s && Do(c, s, e).announced == s.announced
    ensures 0 <= StepsLeft(c, Do(c, s, e)) < StepsLeft(c, s)
  {
    hide MainInvariant, WorkerInvariant, StepsLeft, DoMain, DoWorker;
    match e
    case MainStep => MainUsesUp(c, s);
    case WorkerStep(d, ok) => WorkerUsesUp(c, s, d, ok);
  }

  // Each step of the schedule does something, and none announces.
  ghost predicate Busy(c: Config, s: State, schedule: seq<Event>)
    requires Shape(c, s)
  {
    forall i :: 0 <= i < |schedule| ==>
      var t := Run(c, s, schedule[..i]);
      Do(c, t, schedule[i]) != t && Do(c, t, schedule[i]).announced == t.announced
  }

  lemma {:induction false} BusyIsBounded(c: Config, s: State, schedule: seq<Event>)
    requires ConfigOk(c) && Invariant(c, s) && Busy(c, s, schedule)
    ensures Shape(c, Run(c, s, schedule)) && |schedule| <= StepsLeft(c, s) - StepsLeft(c, Run(c, s, schedule))
  {
    hide MainInvariant, WorkerInvariant, StepsLeft, Do;
    if schedule != [] {
      var n := |schedule| - 1;
      var init := schedule[..n];
      assert forall i :: 0 <= i < n ==> init[..i] == schedule[..i];
      BusyIsBounded(c, s, init);
      RunKeepsInvariant(c, s, init);
      StepUsesUp(c, Run(c, s, init), schedule[n]);
    }
  }

  lemma NotStuckNow(c: Config, s: State)
    requires ConfigOk(c) && Invariant(c, s) && Awake(c, s) && !s.main.Failed?
    ensures exists e :: Do(c, s, e) != s
  {
    hide Plan;
    if s.main.Poll? && s.main.j < c.n && s.testWorkerReport[s.main.j] == 0 {
      var d := s.main.j;
      assert WorkerInvariant(c, s, d);
      assert Do(c, s, WorkerStep(d, true)) != s;
    } else {
      if s.main.Poll? && s.main.j < c.n { assert WorkerInvariant(c, s, s.main.j); }
      assert Do(c, s, MainStep).main != s.main;
    }
  }

  /** Once every worker is past its first wait, none of the states that can follow is stuck unless
      main has reported an error: some step, other than waiting, is always possible. */
  lemma NeverStuck(c: Config, schedule: seq<Event>, more: seq<Event>)
    requires ConfigOk(c) && Awake(c, Run(c, Initial(c), schedule))
    ensures var s := Run(c, Run(c, Initial(c), schedule), more);
            !s.main.Failed? ==> exists e :: Do(c, s, e) != s
  {
    hide Run, Do, Awake, MainInvariant, WorkerInvariant;
    var s := Run(c, Initial(c), schedule);
    InitialInvariant(c);
    RunKeepsInvariant(c, Initial(c), schedule);
    RunKeepsInvariant(c, s, more);
    StaysAwake(c, s, more);
    if !Run(c, s, more).main.Failed? { NotStuckNow(c, Run(c, s, more)); }
  }

  // ----- the missed "get ready" --------------------------------------------------------------

  lemma MissedReadyStep(c: Config, s: State, d: nat, e: Event)
    requires ConfigOk(c) && Invariant(c, s) && d < c.n
    requires s.workers[d] == Ready && s.testJobId[d] == STUCK_ADDRESS && s.announced == []
    ensures var r := Do(c, s, e);
            r.workers[d] == Ready && r.testJobId[d] == STUCK_ADDRESS && r.announced == []
  {
    hide MainInvariant;
    assert WorkerInvariant(c, s, d);
  }

  /** A worker that has not seen -2 when main overwrites it never wakes up, and main never
      announces anything: the wait for the transient -2 can be missed. */
  lemma {:induction false} MissedReady(c: Config, s: State, d: nat, more: seq<Event>)
    requires ConfigOk(c) && Invariant(c, s) && d < c.n
    requires s.workers[d] == Ready && s.testJobId[d] == STUCK_ADDRESS
    ensures var r := Run(c, s, more);
            r.workers[d] == Ready && r.testJobId[d] == STUCK_ADDRESS && r.announced == []
  {
    hide MainInvariant;
    assert WorkerInvariant(c, s, d);
    if more != [] {
      var n := |more| - 1;
      MissedReady(c, s, d, more[..n]);
      RunKeepsInvariant(c, s, more[..n]);
      MissedReadyStep(c, Run(c, s, more[..n]), d, more[n]);
    }
  }

  // No worker has missed the -2, and none has failed.
  ghost predicate AllWell(c: Config, s: State)
    requires Shape(c, s)
  {
    forall d :: 0 <= d < c.n ==>
      s.workers[d] != Stopped && !(s.workers[d] == Ready && s.testJobId[d] == STUCK_ADDRESS)
  }

  lemma RunFirst(c: Config, s: State, e: Event, more: seq<Event>)
    requires Shape(c, s)
    ensures Run(c, s, [e] + more) == Run(c, Do(c, s, e), more)
  {
    hide Do;
    if more == [] {
      assert ([e] + more)[..0] == [];
      assert [e] + more == [e];
    } else {
      var n := |more| - 1;
      RunFirst(c, s, e, more[..n]);
      assert ([e] + more)[..n + 1] == [e] + more[..n];
    }
  }

  // Workers first: a worker that can step does, and its test returns 0; else it is main's turn.
  ghost function Choice(c: Config, s: State): (e: Event)
    requires Shape(c, s)
  {
    if exists d: nat :: d < c.n && DoWorker(c, s, d, true) != s then
      var d: nat :| d < c.n && DoWorker(c, s, d, true) != s; WorkerStep(d, true)
    else MainStep
  }

  lemma ChoiceIsGood(c: Config, s: State)
    requires ConfigOk(c) && Invariant(c, s) && AllWell(c, s)
    ensures var t := Do(c, s, Choice(c, s)); t != s && AllWell(c, t)
  {
    hide Plan;
    var e := Choice(c, s);
    match e
    case WorkerStep(d, ok) =>
      assert WorkerInvariant(c, s, d);
    case MainStep =>
      MainGoes(c, s);
  }

  lemma MainGoes(c: Config, s: State)
    requires ConfigOk(c) && Invariant(c, s) && AllWell(c, s)
    requires forall d: nat :: d < c.n ==> DoWorker(c, s, d, true) == s
    ensures DoMain(c, s) != s && AllWell(c, DoMain(c, s))
  {
    hide Plan;
    var t := DoMain(c, s);
    assert t.main != s.main by {
      if s.main.j < c.n {
        assert WorkerInvariant(c, s, s.main.j);
        assert DoWorker(c, s, s.main.j, true) == s;
      }
    }
    forall d: nat | d < c.n
      ensures s.workers[d] != Stopped && !(s.workers[d] == Ready && t.testJobId[d] == STUCK_ADDRESS)
    {
      assert WorkerInvariant(c, s, d);
      assert DoWorker(c, s, d, true) == s;
    }
  }

  lemma {:induction false} SomeRunAnnounces(c: Config, s: State) returns (more: seq<Event>)
    requires ConfigOk(c) && Invariant(c, s) && AllWell(c, s)
    ensures Run(c, s, more).announced != s.announced
    decreases StepsLeft(c, s)
  {
    hide MainInvariant, WorkerInvariant, StepsLeft, Choice, DoMain, DoWorker, AllWell;
    var e := Choice(c, s);
    var t := Do(c, s, e);
    ChoiceIsGood(c, s);
    RunKeepsInvariant(c, s, [e]);
    if t.announced != s.announced {
      return [e];
    }
    StepUsesUp(c, s, e);
    more := SomeRunAnnounces(c, t);
    RunFirst(c, s, e, more);
    more := [e] + more;
  }

  /** From any state an interleaving can reach, main can still announce another job if and only
      if no worker has failed and none has missed the -2. */
  lemma CanAnnounceIffAllWell(c: Config, schedule: seq<Event>)
    requires ConfigOk(c)
    ensures var s := Run(c, Initial(c), schedule);
            (exists more :: Run(c, s, more).announced != s.announced) <==> AllWell(c, s)
  {
    hide Run;
    var s := Run(c, Initial(c), schedule);
    InitialInvariant(c);
    RunKeepsInvariant(c, Initial(c), schedule);
    if AllWell(c, s) {
      var more := SomeRunAnnounces(c, s);
    } else {
      var d :| 0 <= d < c.n &&
        (s.workers[d] == Stopped || (s.workers[d] == Ready && s.testJobId[d] == STUCK_ADDRESS));
      forall more ensures Run(c, s, more).announced == s.announced {
        if s.workers[d] == Stopped {
          StoppedStops(c, s, more, d);
        } else {
          MissedReady(c, s, d, []);
          MissedReady(c, s, d, more);
          assert WorkerInvariant(c, s, d);
        }
      }
    }
  }

  /** With one worker, main can overwrite the -2 before the worker's first look at it. */
  lemma ReadyCanBeMissed(tests: nat)
    requires tests >= 1
    ensures var c := Config(1, tests);
            var s := Run(c, Initial(c), [MainStep, MainStep, MainStep]);
            !AllWell(c, s) && s.workers[0] == Ready
  {
    var c := Config(1, tests);
    var a := DoMain(c, Initial(c));
    var b := DoMain(c, a);
    var d := DoMain(c, b);
    assert [MainStep, MainStep, MainStep][..2] == [MainStep, MainStep];
    assert [MainStep, MainStep][..1] == [MainStep];
    assert Run(c, Initial(c), []) == Initial(c);
    assert Run(c, Initial(c), [MainStep]) == a;
    assert Run(c, Initial(c), [MainStep, MainStep]) == b;
    assert Run(c, Initial(c), [MainStep, MainStep, MainStep]) == d;
    assert d.workers[0] == Ready && d.testJobId[0] == STUCK_ADDRESS;
  }
}
