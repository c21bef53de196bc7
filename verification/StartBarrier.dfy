/** The start barrier of TinyMemBenchNX: each round main creates the workers, waits until all of
    them are up, writes their job records, lets them go and joins them.  One mutex, two condition
    variables, and wakeups that may also come for no reason. */
module StartBarrier {

  // Who holds p_lock.
  datatype Lock = Free | ByMain | By(d: nat)

  /** thread_func, one step at a time: not created or joined, before the lock, counting itself,
      signalling p_ready, at the test of p_workers_ready, in the wait for p_start, woken and
      without the lock, about to unlock, about to run its job, and at the end. */
  datatype Worker = Idle | Entering | Counting | Signalling | Checking | Asleep | Woken | Leaving | Going | Done

  // bandwidth_bench_helper with parallel_init and parallel_run in it.
  datatype Main =
    | Init | Create(i: nat) | Enter | Check | WaitReady | WokenUp | Leave
    | Fill(i: nat) | Lock2 | SetReady | Unlock2 | Broadcast | Join(i: nat)

  // records[d] is the round worker_data[d] was last written in, ran[d] the records worker d ran.
  datatype State = State(
    lock: Lock, notReady: int, workersReady: int, records: seq<nat>, workers: seq<Worker>, main: Main,
    round: nat, ran: seq<seq<nat>>)

  // A step of main or of worker d, or a wakeup for no reason.
  datatype Event = MainStep | WorkerStep(d: nat) | SpuriousMain | SpuriousWorker(d: nat)

  predicate Shape(n: nat, s: State) {
    && |s.records| == |s.workers| == |s.ran| == n
    && (s.lock.By? ==> s.lock.d < n)
  }

  // worker_data is not initialised; any records will do.
  predicate IsInitial(n: nat, s: State) {
    && Shape(n, s)
    && s.lock == Free && s.main == Init && s.round == 0
    && forall d :: 0 <= d < n ==> s.workers[d] == Idle && s.ran[d] == []
  }

  function SetWorker(s: State, d: nat, w: Worker): State
    requires d < |s.workers|
  {
    s.(workers := s.workers[d := w])
  }

  function WakeAll(workers: seq<Worker>): seq<Worker> {
    seq(|workers|, d requires 0 <= d < |workers| => if workers[d] == Asleep then Woken else workers[d])
  }

  function DoMain(n: nat, s: State): (r: State)
    requires Shape(n, s)
    ensures Shape(n, r)
  {
    match s.main
    case Init => s.(notReady := n, workersReady := 0, main := Create(0))
    case Create(i) =>
      if i < n then SetWorker(s, i, Entering).(main := Create(i + 1)) else s.(main := Enter)
    case Enter => if s.lock == Free then s.(lock := ByMain, main := Check) else s
    case Check => if s.notReady != 0 then s.(lock := Free, main := WaitReady) else s.(main := Leave)
    case WaitReady => s
    case WokenUp => if s.lock == Free then s.(lock := ByMain, main := Check) else s
    case Leave => s.(lock := Free, main := Fill(0))
    case Fill(i) => if i < n then s.(records := s.records[i := s.round], main := Fill(i + 1)) else s.(main := Lock2)
    case Lock2 => if s.lock == Free then s.(lock := ByMain, main := SetReady) else s
    case SetReady => s.(workersReady := 1, main := Unlock2)
    case Unlock2 => s.(lock := Free, main := Broadcast)
    case Broadcast => s.(workers := WakeAll(s.workers), main := Join(0))
    case Join(i) =>
      if i >= n then s.(main := Init, round := s.round + 1)
      else if s.workers[i] == Done then SetWorker(s, i, Idle).(main := Join(i + 1))
      else s
  }

  function DoWorker(n: nat, s: State, d: nat): (r: State)
    requires Shape(n, s) && d < n
    ensures Shape(n, r)
  {
    match s.workers[d]
    case Idle => s
    case Entering => if s.lock == Free then SetWorker(s, d, Counting).(lock := By(d)) else s
    case Counting =>
      var left := s.notReady - 1;
      SetWorker(s, d, if left == 0 then Signalling else Checking).(notReady := left)
    case Signalling => SetWorker(s, d, Checking).(main := if s.main == WaitReady then WokenUp else s.main)
    case Checking =>
      if s.workersReady != 1 then SetWorker(s, d, Asleep).(lock := Free) else SetWorker(s, d, Leaving)
    case Asleep => s
    case Woken => if s.lock == Free then SetWorker(s, d, Checking).(lock := By(d)) else s
    case Leaving => SetWorker(s, d, Going).(lock := Free)
    case Going => SetWorker(s, d, Done).(ran := s.ran[d := s.ran[d] + [s.records[d]]])
    case Done => s
  }

  function Do(n: nat, s: State, e: Event): (r: State)
    requires Shape(n, s)
    ensures Shape(n, r)
  {
    match e
    case MainStep => DoMain(n, s)
    case WorkerStep(d) => if d < n then DoWorker(n, s, d) else s
    case SpuriousMain => if s.main == WaitReady then s.(main := WokenUp) else s
    case SpuriousWorker(d) => if d < n && s.workers[d] == Asleep then SetWorker(s, d, Woken) else s
  }

  function Run(n: nat, s: State, schedule: seq<Event>): (r: State)
    requires Shape(n, s)
    ensures Shape(n, r)
  {
    if schedule == [] then s
    else Do(n, Run(n, s, schedule[..|schedule| - 1]), schedule[|schedule| - 1])
  }

  // ----- the invariant --------------------------------------------------------------------

  predicate WorkerHolds(w: Worker) {
    w in {Counting, Signalling, Checking, Leaving}
  }

  predicate MainHolds(m: Main) {
    m == Check || m == Leave || m == SetReady || m == Unlock2
  }

  // Rounds 0, 1, ..., r - 1.
  function UpTo(r: nat): seq<nat> {
    seq(r, i => i)
  }

  // Before all workers are known to be up; with all of them up and none let go; let go.
  predicate Starting(m: Main) {
    m.Create? || m.Enter? || m.Check? || m.WaitReady? || m.WokenUp?
  }

  predicate Holding(m: Main) {
    m.Leave? || m.Fill? || m.Lock2? || m.SetReady?
  }

  // Where worker d can be, by where main is.
  predicate WorkerPlace(m: Main, w: Worker, d: nat) {
    if m.Init? then w == Idle
    else if m.Create? && d >= m.i then w == Idle
    else if Starting(m) then w in {Entering, Counting, Signalling, Checking, Asleep, Woken}
    else if Holding(m) then w in {Checking, Asleep, Woken}
    else if m.Unlock2? || m.Broadcast? then w in {Checking, Asleep, Woken, Leaving, Going, Done}
    else if d < m.i then w == Idle
    else w in {Checking, Woken, Leaving, Going, Done}
  }

  // Worker d has run its job of this round.
  predicate HasRun(s: State, d: nat)
    requires d < |s.workers|
  {
    s.workers[d] == Done || (s.main.Join? && d < s.main.i)
  }

  // Main has written the record of worker d in this round.
  predicate Written(m: Main, d: nat) {
    m in {Lock2, SetReady, Unlock2, Broadcast} || m.Join? || (m.Fill? && d < m.i)
  }

  predicate WorkerInvariant(n: nat, s: State, d: nat)
    requires Shape(n, s) && d < n
  {
    && WorkerPlace(s.main, s.workers[d], d)
    && (WorkerHolds(s.workers[d]) <==> s.lock == By(d))
    && s.ran[d] == UpTo(if HasRun(s, d) then s.round + 1 else s.round)
    && (Written(s.main, d) ==> s.records[d] == s.round)
  }

  // Worker d has not counted itself yet.
  predicate Uncounted(s: State, d: nat)
    requires d < |s.workers|
  {
    s.workers[d] == Entering || s.workers[d] == Counting || (s.main.Create? && d >= s.main.i)
  }

  function UncountedBelow(s: State, n: nat): (k: nat)
    requires n <= |s.workers|
    ensures k > 0 <==> exists d :: 0 <= d < n && Uncounted(s, d)
  {
    if n == 0 then 0 else UncountedBelow(s, n - 1) + if Uncounted(s, n - 1) then 1 else 0
  }

  predicate MainFlags(n: nat, s: State) {
    && (MainHolds(s.main) <==> s.lock == ByMain)
    && (s.main.Create? || s.main.Fill? || s.main.Join? ==> s.main.i <= n)
    && (Starting(s.main) || Holding(s.main) ==> s.workersReady == 0)
    && (s.main in {Unlock2, Broadcast} || s.main.Join? ==> s.workersReady == 1)
  }

  // Main sleeps only while somebody is still to be counted, or is about to wake it.
  predicate NoLostSignal(n: nat, s: State)
    requires |s.workers| == n
  {
    s.main == WaitReady && s.notReady == 0 ==> exists d :: 0 <= d < n && s.workers[d] == Signalling
  }

  predicate MainInvariant(n: nat, s: State) {
    && |s.workers| == n
    && MainFlags(n, s)
    && (!s.main.Init? ==> s.notReady == UncountedBelow(s, n))
    && NoLostSignal(n, s)
  }

  ghost predicate Invariant(n: nat, s: State) {
    && Shape(n, s)
    && MainInvariant(n, s)
    && forall d :: 0 <= d < n ==> WorkerInvariant(n, s, d)
  }

  lemma {:induction false} SameUncounted(s: State, t: State, n: nat)
    requires n <= |s.workers| && n <= |t.workers|
    requires forall d :: 0 <= d < n ==> (Uncounted(s, d) <==> Uncounted(t, d))
    ensures UncountedBelow(s, n) == UncountedBelow(t, n)
  {
    if n > 0 { SameUncounted(s, t, n - 1); }
  }

  lemma {:induction false} OneCounted(s: State, t: State, n: nat, e: nat)
    requires e < n <= |s.workers| && n <= |t.workers|
    requires forall d :: 0 <= d < n && d != e ==> (Uncounted(s, d) <==> Uncounted(t, d))
    requires Uncounted(s, e) && !Uncounted(t, e)
    ensures UncountedBelow(s, n) == UncountedBelow(t, n) + 1
  {
    if e < n - 1 { OneCounted(s, t, n - 1, e); } else { SameUncounted(s, t, n - 1); }
  }

  lemma {:induction false} AllUncounted(s: State, n: nat)
    requires n <= |s.workers|
    requires forall d :: 0 <= d < n ==> Uncounted(s, d)
    ensures UncountedBelow(s, n) == n
  {
    if n > 0 { AllUncounted(s, n - 1); }
  }

  lemma InitialInvariant(n: nat, s: State)
    requires IsInitial(n, s)
    ensures Invariant(n, s)
  {
  }

  lemma MainKeepsWorker(n: nat, s: State, d: nat)
    requires Invariant(n, s) && d < n
    ensures WorkerInvariant(n, DoMain(n, s), d)
  {
    hide UpTo, UncountedBelow, NoLostSignal;
    assert WorkerInvariant(n, s, d);
    if s.main == Check && s.notReady == 0 { assert !Uncounted(s, d); }
    if s.main.Join? && s.main.i < n {
      assert WorkerInvariant(n, s, s.main.i);
    } else {
      hide Invariant;
      MainStepKeepsWorker(n, s, d);
    }
  }

  // Any of main's steps but a join.
  lemma MainStepKeepsWorker(n: nat, s: State, d: nat)
    requires Shape(n, s) && d < n && WorkerInvariant(n, s, d) && MainFlags(n, s)
    requires s.main == Check && s.notReady == 0 ==> !Uncounted(s, d)
    requires !(s.main.Join? && s.main.i < n)
    ensures WorkerInvariant(n, DoMain(n, s), d)
  {
    hide UpTo;
  }

  // Main's steps change which workers are still to be counted in the first one only.
  lemma MainCountsNobody(n: nat, s: State)
    requires Invariant(n, s) && !s.main.Init?
    ensures UncountedBelow(DoMain(n, s), n) == UncountedBelow(s, n)
  {
    hide UpTo, UncountedBelow, MainInvariant;
    var t := DoMain(n, s);
    forall d: nat | d < n ensures Uncounted(s, d) <==> Uncounted(t, d) { assert WorkerInvariant(n, s, d); }
    SameUncounted(s, t, n);
  }

  lemma MainStarts(n: nat, s: State)
    requires Invariant(n, s) && s.main.Init?
    ensures MainInvariant(n, DoMain(n, s))
  {
    hide UncountedBelow, WorkerInvariant;
    AllUncounted(DoMain(n, s), n);
  }

  lemma MainKeepsFlags(n: nat, s: State)
    requires Shape(n, s) && MainFlags(n, s)
    ensures MainFlags(n, DoMain(n, s))
  {
    hide WakeAll;
  }

  lemma MainKeepsSignal(n: nat, s: State)
    requires Shape(n, s) && NoLostSignal(n, s)
    ensures NoLostSignal(n, DoMain(n, s))
  {
    hide WakeAll;
  }

  lemma MainKeepsMain(n: nat, s: State)
    requires Invariant(n, s)
    ensures MainInvariant(n, DoMain(n, s))
  {
    if s.main.Init? {
      MainStarts(n, s);
    } else {
      MainCountsNobody(n, s);
      MainKeepsFlags(n, s);
      MainKeepsSignal(n, s);
      CountKept(n, s);
      hide UncountedBelow, WorkerInvariant, MainFlags, NoLostSignal, DoMain;
    }
  }

  lemma CountKept(n: nat, s: State)
    requires Shape(n, s) && !s.main.Init?
    ensures DoMain(n, s).notReady == s.notReady
  {
  }

  lemma WorkerKeepsMain(n: nat, s: State, d: nat)
    requires Invariant(n, s) && d < n
    ensures MainInvariant(n, DoWorker(n, s, d))
  {
    hide UpTo, UncountedBelow;
    assert WorkerInvariant(n, s, d);
    var t := DoWorker(n, s, d);
    if s.workers[d] == Counting { OneCounted(s, t, n, d); } else { SameUncounted(s, t, n); }
    if s.main == WaitReady && s.notReady == 0 && s.workers[d] != Signalling {
      var e :| 0 <= e < n && s.workers[e] == Signalling;
      assert t.workers[e] == Signalling;
    }
    if s.workers[d] == Counting && t.notReady == 0 { assert t.workers[d] == Signalling; }
  }

  lemma WorkerKeepsItself(n: nat, s: State, d: nat)
    requires Invariant(n, s) && d < n
    ensures WorkerInvariant(n, DoWorker(n, s, d), d)
  {
    hide UncountedBelow;
    assert WorkerInvariant(n, s, d);
  }

  // A step of worker d leaves the others alone; at most it wakes main.
  lemma OthersUntouched(n: nat, s: State, d: nat, e: nat)
    requires Shape(n, s) && d < n && e < n && d != e
    requires WorkerHolds(s.workers[d]) <==> s.lock == By(d)
    ensures var t := DoWorker(n, s, d);
            && t.workers[e] == s.workers[e] && t.ran[e] == s.ran[e] && t.records == s.records && t.round == s.round
            && (t.main == s.main || (s.main == WaitReady && t.main == WokenUp))
            && (t.lock == By(e) <==> s.lock == By(e))
  {
  }

  lemma WorkerKeepsOther(n: nat, s: State, d: nat, e: nat)
    requires Invariant(n, s) && d < n && e < n && d != e
    ensures WorkerInvariant(n, DoWorker(n, s, d), e)
  {
    assert WorkerInvariant(n, s, d) && WorkerInvariant(n, s, e);
    hide Invariant, DoWorker, UncountedBelow, UpTo, Written, WorkerPlace, WorkerHolds;
    OthersUntouched(n, s, d, e);
    SignalKeepsPlace(s.main, s.workers[e], e);
  }

  lemma SignalKeepsPlace(m: Main, w: Worker, e: nat)
    ensures m == WaitReady ==>
              (WorkerPlace(m, w, e) <==> WorkerPlace(WokenUp, w, e)) && (Written(m, e) <==> Written(WokenUp, e))
  {
  }

  lemma SpuriousKeepsInvariant(n: nat, s: State, e: Event)
    requires Invariant(n, s) && (e.SpuriousMain? || e.SpuriousWorker?)
    ensures Invariant(n, Do(n, s, e))
  {
    hide UpTo, UncountedBelow;
    var t := Do(n, s, e);
    SameUncounted(s, t, n);
    forall d: nat | d < n ensures WorkerInvariant(n, t, d) { assert WorkerInvariant(n, s, d); }
    if t.main == WaitReady && t.notReady == 0 {
      var d :| 0 <= d < n && s.workers[d] == Signalling;
      assert t.workers[d] == Signalling;
    }
  }

  lemma StepKeepsInvariant(n: nat, s: State, e: Event)
    requires Invariant(n, s)
    ensures Invariant(n, Do(n, s, e))
  {
    hide MainInvariant, WorkerInvariant, DoMain, DoWorker;
    match e
    case MainStep =>
      MainKeepsMain(n, s);
      forall d: nat | d < n ensures WorkerInvariant(n, DoMain(n, s), d) { MainKeepsWorker(n, s, d); }
    case WorkerStep(d) =>
      if d < n {
        WorkerKeepsMain(n, s, d);
        forall e: nat | e < n ensures WorkerInvariant(n, DoWorker(n, s, d), e) {
          if e == d { WorkerKeepsItself(n, s, d); } else { WorkerKeepsOther(n, s, d, e); }
        }
      }
    case _ => SpuriousKeepsInvariant(n, s, e);
  }

  lemma {:induction false} RunKeepsInvariant(n: nat, s: State, schedule: seq<Event>)
    requires Invariant(n, s)
    ensures Invariant(n, Run(n, s, schedule))
  {
    hide MainInvariant, WorkerInvariant, Do;
    if schedule != [] {
      var k := |schedule| - 1;
      RunKeepsInvariant(n, s, schedule[..k]);
      StepKeepsInvariant(n, Run(n, s, schedule[..k]), schedule[k]);
    }
  }

  // ----- what every interleaving keeps ------------------------------------------------------

  /** When a worker is about to run its job, main has written every record of this round; and a
      worker has run the records of rounds 0, 1, 2 and so on, each once and in order: all rounds
      before this one, and this one too when it is at its end. */
  lemma RecordsAreReady(n: nat, s0: State, schedule: seq<Event>, d: nat)
    requires IsInitial(n, s0) && d < n
    ensures var s := Run(n, s0, schedule);
            && (s.workers[d] == Going ==> forall e :: 0 <= e < n ==> s.records[e] == s.round)
            && s.ran[d] == UpTo(if HasRun(s, d) then s.round + 1 else s.round)
  {
    hide Run;
    InitialInvariant(n, s0);
    RunKeepsInvariant(n, s0, schedule);
    var s := Run(n, s0, schedule);
    assert WorkerInvariant(n, s, d);
    forall e: nat | e < n && s.workers[d] == Going ensures s.records[e] == s.round {
      assert WorkerInvariant(n, s, e);
    }
  }

  /** Between two rounds every worker has run exactly once in each round so far, and nobody is
      left behind; within a round no worker gets past the barrier before main opens it, and the
      lock is held by exactly the one that thinks so. */
  lemma RoundsAreSeparate(n: nat, s0: State, schedule: seq<Event>, d: nat, e: nat)
    requires IsInitial(n, s0) && d < n && e < n
    ensures var s := Run(n, s0, schedule);
            && (s.main == Init ==> s.workers[d] == Idle && s.ran[d] == UpTo(s.round))
            && (s.workersReady != 1 ==> s.workers[d] !in {Leaving, Going, Done})
            && (WorkerHolds(s.workers[d]) && WorkerHolds(s.workers[e]) ==> d == e)
            && !(WorkerHolds(s.workers[d]) && MainHolds(s.main))
  {
    hide Run, UpTo;
    InitialInvariant(n, s0);
    RunKeepsInvariant(n, s0, schedule);
    var s := Run(n, s0, schedule);
    assert WorkerInvariant(n, s, d) && WorkerInvariant(n, s, e);
  }

  // ----- progress -----------------------------------------------------------------------------

  /** No wakeup is lost: in every state that can be reached, some thread can take a step, without
      the help of a wakeup for no reason. */
  lemma NoDeadlock(n: nat, s: State) returns (e: Event)
    requires Invariant(n, s)
    ensures !e.SpuriousMain? && !e.SpuriousWorker? && Do(n, s, e) != s
  {
    hide UpTo;
    match s.lock
    case By(d) =>
      assert WorkerInvariant(n, s, d);
      e := WorkerStep(d);
    case ByMain =>
      e := MainStep;
    case Free =>
      if s.main == WaitReady {
        var d := ToBeCounted(n, s);
        e := WorkerStep(d);
      } else if s.main.Join? && s.main.i < n {
        assert WorkerInvariant(n, s, s.main.i);
        e := if s.workers[s.main.i] == Done then MainStep else WorkerStep(s.main.i);
        if s.workers[s.main.i] == Going {
          assert DoWorker(n, s, s.main.i).workers[s.main.i] == Done;
        }
      } else {
        assert DoMain(n, s).main != s.main;
        e := MainStep;
      }
  }

  lemma ToBeCounted(n: nat, s: State) returns (d: nat)
    requires Invariant(n, s) && s.lock == Free && s.main == WaitReady
    ensures d < n && s.workers[d] == Entering
  {
    hide UpTo;
    if s.notReady == 0 {
      d :| d < n && s.workers[d] == Signalling;
    } else {
      d :| d < n && Uncounted(s, d);
    }
    assert WorkerInvariant(n, s, d);
  }

  function WorkerLeft(w: Worker): nat {
    match w
    case Idle => 0
    case Entering => 10
    case Counting => 9
    case Signalling => 8
    case Checking => 5
    case Asleep => 2
    case Woken => 6
    case Leaving => 4
    case Going => 3
    case Done => 1
  }

  function WorkersLeft(workers: seq<Worker>): nat {
    if workers == [] then 0 else WorkersLeft(workers[..|workers| - 1]) + WorkerLeft(workers[|workers| - 1])
  }

  function MainLeft(n: nat, m: Main): int {
    match m
    case Init => 18 * n + 15
    case Create(i) => 18 * n + 14 - 11 * i
    case Enter => 7 * n + 13
    case WokenUp => 7 * n + 13
    case Check => 7 * n + 12
    case WaitReady => 7 * n + 11
    case Leave => 7 * n + 10
    case Fill(i) => 7 * n + 9 - i
    case Lock2 => 6 * n + 8
    case SetReady => 6 * n + 7
    case Unlock2 => 6 * n + 6
    case Broadcast => 6 * n + 5
    case Join(i) => n - i
  }

  // A bound on the steps left in this round if there are no more wakeups for no reason.
  function StepsLeft(n: nat, s: State): int {
    MainLeft(n, s.main) + WorkersLeft(s.workers)
  }

  lemma {:induction false} WorkersLeftUpdate(workers: seq<Worker>, d: nat, w: Worker)
    requires d < |workers|
    ensures WorkersLeft(workers[d := w]) == WorkersLeft(workers) - WorkerLeft(workers[d]) + WorkerLeft(w)
  {
    var k := |workers| - 1;
    if d < k {
      WorkersLeftUpdate(workers[..k], d, w);
      assert workers[d := w][..k] == workers[..k][d := w];
    } else {
      assert workers[d := w][..k] == workers[..k];
    }
  }

  lemma {:induction false} WakeAllLeft(workers: seq<Worker>)
    ensures WorkersLeft(WakeAll(workers)) <= WorkersLeft(workers) + 4 * |workers|
  {
    if workers != [] {
      var k := |workers| - 1;
      WakeAllLeft(workers[..k]);
      assert WakeAll(workers)[..k] == WakeAll(workers[..k]);
    }
  }

  lemma MainUsesUp(n: nat, s: State)
    requires Invariant(n, s) && DoMain(n, s) != s && DoMain(n, s).round == s.round
    ensures StepsLeft(n, DoMain(n, s)) < StepsLeft(n, s)
  {
    hide UpTo, WorkersLeft, UncountedBelow, WakeAll;
    if s.main.Create? && s.main.i < n {
      assert WorkerInvariant(n, s, s.main.i);
      WorkersLeftUpdate(s.workers, s.main.i, Entering);
    } else if s.main.Join? && s.main.i < n {
      WorkersLeftUpdate(s.workers, s.main.i, Idle);
    } else if s.main == Broadcast {
      WakeAllLeft(s.workers);
    }
  }

  lemma WorkerUsesUp(n: nat, s: State, d: nat)
    requires Invariant(n, s) && d < n && DoWorker(n, s, d) != s
    ensures StepsLeft(n, DoWorker(n, s, d)) < StepsLeft(n, s)
  {
    hide MainInvariant, WorkerInvariant, WorkersLeft;
    WorkersLeftUpdate(s.workers, d, DoWorker(n, s, d).workers[d]);
  }

  /** Every step but a wakeup for no reason, or the start of another round, uses up a step. */
  lemma StepUsesUp(n: nat, s: State, e: Event)
    requires Invariant(n, s) && Do(n, s, e) != s && Do(n, s, e).round == s.round
    ensures StepsLeft(n, Do(n, s, e)) <= StepsLeft(n, s) + if e.SpuriousMain? || e.SpuriousWorker? then 4 else -1
  {
    hide MainInvariant, WorkerInvariant, WorkersLeft, DoMain, DoWorker;
    match e
    case MainStep => MainUsesUp(n, s);
    case WorkerStep(d) => WorkerUsesUp(n, s, d);
    case SpuriousMain =>
    case SpuriousWorker(d) => WorkersLeftUpdate(s.workers, d, Woken);
  }

  lemma StepsLeftIsNat(n: nat, s: State)
    requires Invariant(n, s)
    ensures StepsLeft(n, s) >= 0
  {
    hide UpTo, UncountedBelow, WorkersLeft;
  }

  // Each step of the schedule does something, and none starts another round.
  ghost predicate Busy(n: nat, s: State, schedule: seq<Event>)
    requires Shape(n, s)
  {
    forall i :: 0 <= i < |schedule| ==>
      var t := Run(n, s, schedule[..i]);
      Do(n, t, schedule[i]) != t && Do(n, t, schedule[i]).round == t.round
  }

  function Spurious(schedule: seq<Event>): nat {
    if schedule == [] then 0
    else
      var e := schedule[|schedule| - 1];
      Spurious(schedule[..|schedule| - 1]) + if e.SpuriousMain? || e.SpuriousWorker? then 1 else 0
  }

  /** A round can go on for long only by wakeups for no reason: with w of them, it takes at most
      StepsLeft + 5w steps that do something. */
  lemma {:induction false} RoundsEnd(n: nat, s: State, schedule: seq<Event>)
    requires Invariant(n, s) && Busy(n, s, schedule)
    ensures |schedule| + StepsLeft(n, Run(n, s, schedule)) <= StepsLeft(n, s) + 5 * Spurious(schedule)
    ensures |schedule| <= StepsLeft(n, s) + 5 * Spurious(schedule)
  {
    hide MainInvariant, WorkerInvariant, StepsLeft, Do;
    RunKeepsInvariant(n, s, schedule);
    StepsLeftIsNat(n, Run(n, s, schedule));
    if schedule != [] {
      var k := |schedule| - 1;
      var init := schedule[..k];
      assert forall i :: 0 <= i < k ==> init[..i] == schedule[..i];
      RoundsEnd(n, s, init);
      RunKeepsInvariant(n, s, init);
      StepUsesUp(n, Run(n, s, init), schedule[k]);
    }
  }

  lemma {:induction false} RunFirst(n: nat, s: State, e: Event, more: seq<Event>)
    requires Shape(n, s)
    ensures Run(n, s, [e] + more) == Run(n, Do(n, s, e), more)
  {
    hide Do;
    if more == [] {
      assert [e] + more == [e] && [e][..0] == [];
    } else {
      var k := |more| - 1;
      RunFirst(n, s, e, more[..k]);
      assert ([e] + more)[..k + 1] == [e] + more[..k];
    }
  }

  lemma {:induction false} SpuriousFirst(e: Event, more: seq<Event>)
    requires !e.SpuriousMain? && !e.SpuriousWorker?
    ensures Spurious([e] + more) == Spurious(more)
  {
    if more == [] {
      assert [e] + more == [e] && [e][..0] == [];
    } else {
      var k := |more| - 1;
      SpuriousFirst(e, more[..k]);
      assert ([e] + more)[..k + 1] == [e] + more[..k];
    }
  }

  lemma RoundsFollow(n: nat, s: State, e: Event)
    requires Shape(n, s)
    ensures Do(n, s, e).round == s.round || Do(n, s, e).round == s.round + 1
  {
  }

  lemma {:induction false} SomeRunEndsRound(n: nat, s: State) returns (more: seq<Event>)
    requires Invariant(n, s)
    ensures Run(n, s, more).round == s.round + 1 && Spurious(more) == 0 && |more| <= StepsLeft(n, s) + 1
    decreases StepsLeft(n, s)
  {
    hide MainInvariant, WorkerInvariant, StepsLeft, DoMain, DoWorker;
    var e := NoDeadlock(n, s);
    var t := Do(n, s, e);
    StepKeepsInvariant(n, s, e);
    StepsLeftIsNat(n, s);
    RoundsFollow(n, s, e);
    if t.round != s.round {
      more := [];
    } else {
      StepUsesUp(n, s, e);
      StepsLeftIsNat(n, t);
      more := SomeRunEndsRound(n, t);
    }
    RunFirst(n, s, e, more);
    SpuriousFirst(e, more);
    more := [e] + more;
  }

  /** Whatever has happened, the current round can complete, without any wakeup for no reason. */
  lemma RoundCanComplete(n: nat, s0: State, schedule: seq<Event>) returns (more: seq<Event>)
    requires IsInitial(n, s0)
    ensures var s := Run(n, s0, schedule);
            Run(n, s, more).round == s.round + 1 && Spurious(more) == 0 && |more| <= StepsLeft(n, s) + 1
  {
    hide Run, Do, StepsLeft;
    InitialInvariant(n, s0);
    RunKeepsInvariant(n, s0, schedule);
    more := SomeRunEndsRound(n, Run(n, s0, schedule));
  }
}
