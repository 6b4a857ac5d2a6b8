/** The busy-wait handshake of threadstest.c as interleaved steps.
    The main thread runs any number of tests one after the other; each test is a pair
    run_thread / wait_for_thread followed by the test's own checks.  run_thread publishes the
    callback in `func`, sets `busy_wait` and asks the host for a thread; the new thread enters
    the enclave, calls *func and clears `busy_wait`; the main thread spins meanwhile.
    A schedule is any sequence of steps of the main thread and of the created threads. */
module ThreadsTest {

  /** once_run_thread_cb, or thread_local_thread_cb with the outcome of its library calls. */
  datatype Callback = Once | Local(ok: bool)

  /** A callback and the number of steps it takes before it returns. */
  datatype Job = Job(cb: Callback, work: nat)

  /** The main thread: the three statements of run_thread, the loop of wait_for_thread, the
      library call test_once makes itself, the final check; and the two ways a test gives up. */
  datatype MainPc = SetFunc | SetBusy | Create | Spin | OwnCall | Check | NoThread | CheckFailed

  /** A created thread: new_thread_func before, during and after the call of *func.  Lost: the
      host thread could not enter the enclave and returned without running it. */
  datatype ThreadPc = Entering | Calling(job: Job, left: nat) | Clearing | Gone | Lost

  datatype State = State(
    test: nat, pc: MainPc,
    func: Job, busyWait: int,
    threads: seq<ThreadPc>,
    ran: seq<Job>,              // the callbacks that returned, oldest first
    onceDone: bool, onceCount: nat, cbOk: bool)

  datatype Step = Main(created: bool) | Thread(id: nat, entered: bool)

  const IDLE := Job(Local(false), 0)

  function Init(): State { State(0, SetFunc, IDLE, 0, [], [], false, 0, false) }

  /** CRYPTO_THREAD_run_once(&once_run, once_do_run) */
  function RunOnce(s: State): State {
    if s.onceDone then s else s.(onceDone := true, onceCount := s.onceCount + 1)
  }

  /** The effect of a callback, at its return. */
  function Return(s: State, job: Job): State {
    var s1 := s.(ran := s.ran + [job]);
    match job.cb
    case Once => RunOnce(s1)
    case Local(ok) => s1.(cbOk := s1.cbOk || ok)
  }

  predicate Passes(s: State, cb: Callback) {
    match cb case Once => s.onceCount == 1 case Local(_) => s.cbOk
  }

  function MainStep(tests: seq<Job>, s: State, created: bool): State {
    if s.test >= |tests| then s
    else
      var job := tests[s.test];
      match s.pc
      case SetFunc => s.(func := job, pc := SetBusy)
      case SetBusy => s.(busyWait := 1, pc := Create)
      case Create =>
        if created then s.(threads := s.threads + [Entering], pc := Spin) else s.(pc := NoThread)
      case Spin => if s.busyWait == 1 then s else s.(pc := OwnCall)
      case OwnCall => (if job.cb.Once? then RunOnce(s) else s).(pc := Check)
      case Check => if Passes(s, job.cb) then s.(test := s.test + 1, pc := SetFunc) else s.(pc := CheckFailed)
      case NoThread => s
      case CheckFailed => s
  }

  function ThreadStep(s: State, id: nat, entered: bool): State {
    if id >= |s.threads| then s
    else match s.threads[id]
      case Entering =>
        s.(threads := s.threads[id := if entered then Calling(s.func, s.func.work) else Lost])
      case Calling(job, left) =>
        if left > 0 then s.(threads := s.threads[id := Calling(job, left - 1)])
        else Return(s, job).(threads := s.threads[id := Clearing])
      case Clearing => s.(busyWait := 0, threads := s.threads[id := Gone])
      case Gone => s
      case Lost => s
  }

  function Do(tests: seq<Job>, s: State, e: Step): State {
    match e
    case Main(created) => MainStep(tests, s, created)
    case Thread(id, entered) => ThreadStep(s, id, entered)
  }

  function RunFrom(tests: seq<Job>, s: State, es: seq<Step>): State
    decreases |es|
  {
    if es == [] then s else RunFrom(tests, Do(tests, s, es[0]), es[1..])
  }

  function Run(tests: seq<Job>, es: seq<Step>): State { RunFrom(tests, Init(), es) }

  // ---------- the invariant ----------

  predicate Waiting(s: State) { s.pc == Spin }

  predicate Active(t: ThreadPc) { t.Entering? || t.Calling? || t.Clearing? }

  /** The thread of the current test exists from its creation on. */
  predicate Created(s: State) { s.pc in {Spin, OwnCall, Check, CheckFailed} }

  predicate CallReturned(t: ThreadPc) { t.Clearing? || t.Gone? }

  ghost predicate AllGone(ts: seq<ThreadPc>) { forall i :: 0 <= i < |ts| ==> ts[i] == Gone }

  /** Threads of earlier tests are gone; so is the current one once the main thread passed. */
  ghost predicate ThreadsInv(s: State) {
    if Waiting(s) then |s.threads| == s.test + 1 && AllGone(s.threads[..s.test])
    else |s.threads| == s.test + (if Created(s) then 1 else 0) && AllGone(s.threads)
  }

  /** Which callbacks returned: those of earlier tests, and the current one if its thread is
      past the call. */
  ghost predicate RanInv(tests: seq<Job>, s: State) {
    && s.test <= |tests|
    && (s.test == |tests| ==> s.pc == SetFunc)
    && (if s.pc in {OwnCall, Check, CheckFailed}
           || (Waiting(s) && |s.threads| > s.test && CallReturned(s.threads[s.test]))
        then s.test < |tests| && s.ran == tests[..s.test + 1]
        else s.ran == tests[..s.test])
  }

  ghost predicate BusyInv(tests: seq<Job>, s: State) {
    && (s.pc !in {SetFunc, CheckFailed} && s.test < |tests| ==> s.func == tests[s.test])
    && (s.pc in {Create, NoThread} ==> s.busyWait == 1)
    && (Waiting(s) && |s.threads| > s.test ==>
      && s.busyWait == (if s.threads[s.test] == Gone then 0 else 1)
      && (s.threads[s.test].Calling? ==>
           s.threads[s.test].job == s.func && s.threads[s.test].left <= s.func.work))
  }

  ghost predicate EffectInv(s: State) {
    && s.onceCount == (if s.onceDone then 1 else 0)
    && (s.onceDone <==> exists j :: 0 <= j < |s.ran| && s.ran[j].cb == Once)
    && (s.cbOk <==> exists j :: 0 <= j < |s.ran| && s.ran[j].cb == Local(true))
  }

  ghost predicate Inv(tests: seq<Job>, s: State) {
    ThreadsInv(s) && RanInv(tests, s) && BusyInv(tests, s) && EffectInv(s)
  }

  lemma ReturnEffects(s: State, job: Job)
    requires EffectInv(s)
    ensures EffectInv(Return(s, job))
  {
    var r := Return(s, job);
    assert r.ran == s.ran + [job];
    assert r.ran[|s.ran|] == job;
    assert forall j :: 0 <= j < |s.ran| ==> r.ran[j] == s.ran[j];
  }

  lemma CreatePreserves(tests: seq<Job>, s: State, created: bool)
    requires Inv(tests, s) && s.test < |tests| && s.pc == Create
    ensures Inv(tests, MainStep(tests, s, created))
  {
    var r := MainStep(tests, s, created);
    assert r.threads[..s.test] == s.threads[..s.test];
  }

  lemma SpinPreserves(tests: seq<Job>, s: State)
    requires Inv(tests, s) && s.test < |tests| && s.pc == Spin
    ensures Inv(tests, MainStep(tests, s, true))
  {
    assert s.threads == s.threads[..s.test] + [s.threads[s.test]];
  }

  lemma MainPreserves(tests: seq<Job>, s: State, created: bool)
    requires Inv(tests, s)
    ensures Inv(tests, MainStep(tests, s, created))
  {
    if s.test < |tests| {
      match s.pc {
        case Create => CreatePreserves(tests, s, created);
        case Spin => SpinPreserves(tests, s);
        case OwnCall => assert s.ran[s.test] == tests[s.test];
        case _ =>
      }
    }
  }

  lemma ReturnPreserves(tests: seq<Job>, s: State)
    requires Inv(tests, s) && Waiting(s) && s.threads[s.test].Calling? && s.threads[s.test].left == 0
    ensures Inv(tests, ThreadStep(s, s.test, true))
  {
    var r := ThreadStep(s, s.test, true);
    assert r.threads[..s.test] == s.threads[..s.test];
    ReturnEffects(s, s.threads[s.test].job);
    assert tests[..s.test] + [tests[s.test]] == tests[..s.test + 1];
  }

  lemma ThreadPreserves(tests: seq<Job>, s: State, id: nat, entered: bool)
    requires Inv(tests, s)
    ensures Inv(tests, ThreadStep(s, id, entered))
  {
    if id < |s.threads| {
      var r := ThreadStep(s, id, entered);
      if Waiting(s) && id == s.test {
        if s.threads[id].Calling? && s.threads[id].left == 0 {
          ReturnPreserves(tests, s);
        } else {
          assert r.threads[..s.test] == s.threads[..s.test];
        }
      } else if Waiting(s) {
        assert s.threads[id] == s.threads[..s.test][id];
      }
    }
  }

  lemma DoPreserves(tests: seq<Job>, s: State, e: Step)
    requires Inv(tests, s)
    ensures Inv(tests, Do(tests, s, e))
  {
    match e {
      case Main(created) => MainPreserves(tests, s, created);
      case Thread(id, entered) => ThreadPreserves(tests, s, id, entered);
    }
  }

  lemma {:induction false} RunPreserves(tests: seq<Job>, s: State, es: seq<Step>)
    requires Inv(tests, s)
    ensures Inv(tests, RunFrom(tests, s, es))
    decreases |es|
  {
    if es == [] {
    } else {
      DoPreserves(tests, s, es[0]);
      RunPreserves(tests, Do(tests, s, es[0]), es[1..]);
    }
  }

  lemma Reachable(tests: seq<Job>, es: seq<Step>)
    ensures Inv(tests, Run(tests, es))
  {
    RunPreserves(tests, Init(), es);
  }

  // ---------- safety, over every schedule ----------

  /** Callbacks return exactly once each and in the order of the tests; when the main thread is
      past wait_for_thread its own callback has returned and the next one has not started. */
  lemma CallbacksRunOnceInOrder(tests: seq<Job>, es: seq<Step>)
    ensures var s := Run(tests, es);
      && s.test <= |tests|
      && (s.ran == tests[..s.test] || (s.test < |tests| && s.ran == tests[..s.test + 1]))
      && (s.pc in {OwnCall, Check, CheckFailed} ==> s.test < |tests| && s.ran == tests[..s.test + 1])
      && (s.pc in {SetFunc, SetBusy, Create} ==> s.ran == tests[..s.test])
  {
    Reachable(tests, es);
  }

  /** Two created threads are never inside new_thread_func together. */
  lemma NoOverlap(tests: seq<Job>, es: seq<Step>, i: nat, j: nat)
    requires var s := Run(tests, es);
      i < |s.threads| && j < |s.threads| && Active(s.threads[i]) && Active(s.threads[j])
    ensures i == j
  {
    Reachable(tests, es);
    OnlyCurrentActive(tests, Run(tests, es), i);
    OnlyCurrentActive(tests, Run(tests, es), j);
  }

  lemma OnlyCurrentActive(tests: seq<Job>, s: State, i: nat)
    requires Inv(tests, s) && i < |s.threads| && s.threads[i] != Gone
    ensures Waiting(s) && i == s.test
  {
    if Waiting(s) {
      assert s.threads == s.threads[..s.test] + [s.threads[s.test]];
    }
  }

  /** A thread writes shared state only while the main thread waits for it: at any other moment
      no thread step changes anything, so no late write clears a later test's busy_wait. */
  lemma NoLateWrite(tests: seq<Job>, es: seq<Step>, id: nat, entered: bool)
    ensures var s := Run(tests, es);
      ThreadStep(s, id, entered) != s ==> Waiting(s) && id == s.test
  {
    Reachable(tests, es);
    var s := Run(tests, es);
    if ThreadStep(s, id, entered) != s { OnlyCurrentActive(tests, s, id); }
  }

  /** once_run_count is 1 whenever test_once looks at it, so that check never fails. */
  lemma OnceCountIsOne(tests: seq<Job>, es: seq<Step>)
    ensures var s := Run(tests, es);
      && s.onceCount <= 1
      && (s.pc in {Check, CheckFailed} ==> s.test < |tests|)
      && (s.pc in {Check, CheckFailed} && tests[s.test].cb == Once ==> s.onceCount == 1)
      && (s.pc == Check && tests[s.test].cb == Once ==> Passes(s, Once))
  {
    Reachable(tests, es);
    var s := Run(tests, es);
    if s.pc in {Check, CheckFailed} { assert s.ran[s.test] == tests[s.test]; }
  }

  /** The callback of test k or of an earlier one succeeded. */
  ghost predicate SomeLocalOk(tests: seq<Job>, k: nat)
    requires k < |tests|
  {
    exists j :: 0 <= j <= k && tests[j].cb == Local(true)
  }

  /** How the check of a test ends. */
  lemma CheckOutcome(tests: seq<Job>, s: State)
    requires Inv(tests, s) && s.pc == Check
    ensures s.test < |tests|
    ensures Passes(s, tests[s.test].cb) <==> tests[s.test].cb == Once || SomeLocalOk(tests, s.test)
  {
    assert forall j :: 0 <= j <= s.test ==> s.ran[j] == tests[j];
    if SomeLocalOk(tests, s.test) {
      var j :| 0 <= j <= s.test && tests[j].cb == Local(true);
      assert s.ran[j].cb == Local(true);
    }
  }

  /** thread_local_thread_cb_ok is never reset: test_thread_local passes exactly when its own
      callback or that of an earlier test succeeded. */
  lemma LocalCheckExactly(tests: seq<Job>, es: seq<Step>)
    requires var s := Run(tests, es); s.pc == Check && s.test < |tests| && tests[s.test].cb.Local?
    ensures var s := Run(tests, es);
      Passes(s, tests[s.test].cb) <==> SomeLocalOk(tests, s.test)
  {
    Reachable(tests, es);
    CheckOutcome(tests, Run(tests, es));
  }

  /** The check of test k passes. */
  ghost predicate Supported(tests: seq<Job>, k: nat)
    requires k < |tests|
  {
    tests[k].cb == Once || SomeLocalOk(tests, k)
  }

  /** Every test that is done passed its check, and a test that failed did not. */
  ghost predicate Vetted(tests: seq<Job>, s: State) {
    && s.test <= |tests|
    && (forall k :: 0 <= k < s.test ==> Supported(tests, k))
    && (s.pc == CheckFailed ==> s.test < |tests| && tests[s.test].cb.Local? && !SomeLocalOk(tests, s.test))
  }

  lemma StepVets(tests: seq<Job>, s: State, e: Step)
    requires Inv(tests, s) && Vetted(tests, s)
    ensures Vetted(tests, Do(tests, s, e))
  {
    if s.pc == Check { CheckOutcome(tests, s); }
    DoPreserves(tests, s, e);
  }

  lemma {:induction false} RunVets(tests: seq<Job>, s: State, es: seq<Step>)
    requires Inv(tests, s) && Vetted(tests, s)
    ensures Vetted(tests, RunFrom(tests, s, es))
    decreases |es|
  {
    if es == [] {
    } else {
      StepVets(tests, s, es[0]);
      DoPreserves(tests, s, es[0]);
      RunVets(tests, Do(tests, s, es[0]), es[1..]);
    }
  }

  /** Over every schedule a test is left behind only when its check passed: it is a once test, or a
      local callback succeeded by then; and a check fails only for a local test without one. */
  lemma ChecksDecide(tests: seq<Job>, es: seq<Step>)
    ensures Vetted(tests, Run(tests, es))
  {
    Reachable(tests, []);
    RunVets(tests, Init(), es);
  }

  /** No step of the main thread failed to create its thread. */
  ghost predicate AllCreated(es: seq<Step>) { forall i :: 0 <= i < |es| && es[i].Main? ==> es[i].created }

  /** run_thread fails only when a thread could not be created. */
  lemma {:induction false} CreatedFrom(tests: seq<Job>, s: State, es: seq<Step>)
    requires s.pc != NoThread && AllCreated(es)
    ensures RunFrom(tests, s, es).pc != NoThread
    decreases |es|
  {
    if es == [] {
    } else {
      CreatedFrom(tests, Do(tests, s, es[0]), es[1..]);
    }
  }

  /** And then it ends the tests: no callback is called and nothing changes any more. */
  lemma NotCreated(tests: seq<Job>, more: seq<Step>)
    requires tests != []
    ensures var s := Run(tests, [Main(true), Main(true), Main(false)]);
      s.pc == NoThread && s.test == 0 && s.ran == [] && s.threads == []
      && RunFrom(tests, s, more) == s
  {
    var m := Main(true);
    var s1 := Do(tests, Init(), m);
    var s2 := Do(tests, s1, m);
    assert [m, m, Main(false)][1..] == [m, Main(false)] && [m, Main(false)][1..] == [Main(false)];
    assert RunFrom(tests, s2, [Main(false)]) == Do(tests, s2, Main(false));
    assert RunFrom(tests, s1, [m, Main(false)]) == RunFrom(tests, s2, [Main(false)]);
    var s := Do(tests, s2, Main(false));
    assert Run(tests, [m, m, Main(false)]) == s;
    StaysPut(tests, s, more);
  }

  lemma {:induction false} StaysPut(tests: seq<Job>, s: State, es: seq<Step>)
    requires s.pc == NoThread && s.threads == []
    ensures RunFrom(tests, s, es) == s
    decreases |es|
  {
    if es == [] {
    } else {
      StaysPut(tests, s, es[1..]);
    }
  }

  lemma {:induction false} RunSplit(tests: seq<Job>, s: State, es: seq<Step>, fs: seq<Step>)
    ensures RunFrom(tests, s, es + fs) == RunFrom(tests, RunFrom(tests, s, es), fs)
    decreases |es|
  {
    if es == [] {
      assert es + fs == fs;
    } else {
      assert (es + fs)[1..] == es[1..] + fs;
      RunSplit(tests, Do(tests, s, es[0]), es[1..], fs);
    }
  }

  lemma RunCons(tests: seq<Job>, s: State, e: Step, es: seq<Step>)
    ensures RunFrom(tests, s, [e] + es) == RunFrom(tests, Do(tests, s, e), es)
  {
    assert ([e] + es)[1..] == es;
  }

  // ---------- release of the waiting main thread ----------

  /** The steps the created thread still takes before it clears busy_wait. */
  function Remaining(s: State): nat
    requires Waiting(s) && s.test < |s.threads|
  {
    match s.threads[s.test]
    case Entering => s.func.work + 3
    case Calling(_, left) => left + 2
    case Clearing => 1
    case Gone => 0
    case Lost => 0
  }

  /** The number of steps of thread id in a schedule. */
  function StepsOf(es: seq<Step>, id: nat): nat {
    if es == [] then 0
    else (if es[0].Thread? && es[0].id == id then 1 else 0) + StepsOf(es[1..], id)
  }

  predicate AllEnter(es: seq<Step>) { forall i :: 0 <= i < |es| && es[i].Thread? ==> es[i].entered }

  /** The main thread is past the wait of test k. */
  predicate Passed(s: State, k: nat) {
    s.test > k || (s.test == k && s.pc in {OwnCall, Check, CheckFailed})
  }

  lemma {:induction false} PassedStays(tests: seq<Job>, s: State, k: nat, es: seq<Step>)
    requires Passed(s, k)
    ensures Passed(RunFrom(tests, s, es), k)
    decreases |es|
  {
    if es == [] {
    } else {
      PassedStays(tests, Do(tests, s, es[0]), k, es[1..]);
    }
  }

  /** Each step of the created thread brings the release nearer by exactly one, no other step
      delays it, and spinning changes nothing: once the thread took its Remaining steps, the
      main thread is past the wait or finds busy_wait cleared. */
  lemma {:induction false} Released(tests: seq<Job>, s: State, es: seq<Step>)
    requires Inv(tests, s) && Waiting(s) && s.threads[s.test] != Lost && AllEnter(es)
    ensures var t := RunFrom(tests, s, es);
      && (Passed(t, s.test) || (t.test == s.test && Waiting(t) && Inv(tests, t) && t.threads[t.test] != Lost))
      && (StepsOf(es, s.test) >= Remaining(s) ==> Passed(t, s.test) || t.busyWait == 0)
    decreases |es|
  {
    if es == [] {
    } else {
      var s1 := Do(tests, s, es[0]);
      DoPreserves(tests, s, es[0]);
      if s.busyWait != 1 && es[0].Main? {
        PassedStays(tests, s1, s.test, es[1..]);
      } else {
        if s1 != s && es[0].Thread? { OnlyCurrentActive(tests, s, es[0].id); }
        Released(tests, s1, es[1..]);
      }
    }
  }

  /** A thread that could not enter the enclave leaves busy_wait set: no schedule ends the wait. */
  lemma {:induction false} LostMeansForever(tests: seq<Job>, s: State, es: seq<Step>)
    requires Inv(tests, s) && Waiting(s) && s.threads[s.test] == Lost
    ensures RunFrom(tests, s, es) == s
    decreases |es|
  {
    if es == [] {
    } else {
      if es[0].Thread? && es[0].id < |s.threads| && s.threads[es[0].id] != Gone {
        OnlyCurrentActive(tests, s, es[0].id);
      }
      LostMeansForever(tests, s, es[1..]);
    }
  }

  /** And this happens: the first thread that cannot enter the enclave ends the tests for good. */
  lemma LostReached(tests: seq<Job>, more: seq<Step>)
    requires tests != []
    ensures var es := [Main(true), Main(true), Main(true), Thread(0, false)];
      var s := Run(tests, es);
      && s.test == 0 && Waiting(s) && s.threads == [Lost]
      && Run(tests, es + more) == s
  {
    var es := [Main(true), Main(true), Main(true), Thread(0, false)];
    Reachable(tests, es);
    var m := Main(true);
    RunCons(tests, Init(), m, [m, m, Thread(0, false)]);
    var s1 := Do(tests, Init(), m);
    RunCons(tests, s1, m, [m, Thread(0, false)]);
    var s2 := Do(tests, s1, m);
    RunCons(tests, s2, m, [Thread(0, false)]);
    var s3 := Do(tests, s2, m);
    RunCons(tests, s3, Thread(0, false), []);
    assert es == [m] + [m, m, Thread(0, false)] && [m, m, Thread(0, false)] == [m] + [m, Thread(0, false)];
    assert [m, Thread(0, false)] == [m] + [Thread(0, false)] && [Thread(0, false)] == [Thread(0, false)] + [];
    RunSplit(tests, Init(), es, more);
    LostMeansForever(tests, Run(tests, es), more);
  }

  function Times(n: nat, e: Step): (es: seq<Step>)
    ensures |es| == n && forall i :: 0 <= i < n ==> es[i] == e
  {
    if n == 0 then [] else [e] + Times(n - 1, e)
  }

  lemma {:induction false} TimesSteps(n: nat, id: nat)
    ensures StepsOf(Times(n, Thread(id, true)), id) == n
  {
    if n == 0 {
    } else {
      TimesSteps(n - 1, id);
      assert Times(n, Thread(id, true))[1..] == Times(n - 1, Thread(id, true));
    }
  }

  /** The wait of a test can end exactly when its thread was not turned away. */
  lemma ReleasableExactly(tests: seq<Job>, s: State)
    requires Inv(tests, s) && Waiting(s)
    ensures (exists es :: Passed(RunFrom(tests, s, es), s.test)) <==> s.threads[s.test] != Lost
  {
    if s.threads[s.test] == Lost {
      forall es ensures !Passed(RunFrom(tests, s, es), s.test) { LostMeansForever(tests, s, es); }
    } else {
      var n := Remaining(s);
      var es := Times(n, Thread(s.test, true));
      TimesSteps(n, s.test);
      Released(tests, s, es);
      var t := RunFrom(tests, s, es);
      RunPreserves(tests, s, es);
      if !Passed(t, s.test) {
        RunSplit(tests, s, es, [Main(true)]);
        assert RunFrom(tests, t, [Main(true)]) == MainStep(tests, t, true);
        assert Passed(RunFrom(tests, s, es + [Main(true)]), s.test);
      }
    }
  }

  /** A test can always be brought from run_thread to its check. */
  lemma ReachesCheck(tests: seq<Job>, s: State) returns (es: seq<Step>)
    requires Inv(tests, s) && s.pc == SetFunc && s.test < |tests|
    ensures var t := RunFrom(tests, s, es);
      Inv(tests, t) && t.test == s.test && t.pc == Check
  {
    var m := Main(true);
    var s1 := Do(tests, s, m);
    var s2 := Do(tests, s1, m);
    var s3 := Do(tests, s2, m);
    MainPreserves(tests, s, true);
    MainPreserves(tests, s1, true);
    MainPreserves(tests, s2, true);
    var n := Remaining(s3);
    var fs := Times(n, Thread(s.test, true));
    TimesSteps(n, s.test);
    Released(tests, s3, fs);
    OnlyThreads(tests, s3, fs);
    var s4 := RunFrom(tests, s3, fs);
    RunPreserves(tests, s3, fs);
    var s5 := Do(tests, s4, m);
    var s6 := Do(tests, s5, m);
    MainPreserves(tests, s4, true);
    MainPreserves(tests, s5, true);
    es := [m] + ([m] + ([m] + (fs + ([m] + ([m] + [])))));
    RunCons(tests, s, m, [m] + ([m] + (fs + ([m] + ([m] + [])))));
    RunCons(tests, s1, m, [m] + (fs + ([m] + ([m] + []))));
    RunCons(tests, s2, m, fs + ([m] + ([m] + [])));
    RunSplit(tests, s3, fs, [m] + ([m] + []));
    RunCons(tests, s4, m, [m] + []);
    RunCons(tests, s5, m, []);
  }

  /** Without a step of the main thread it stays where it is. */
  lemma {:induction false} OnlyThreads(tests: seq<Job>, s: State, es: seq<Step>)
    requires forall i :: 0 <= i < |es| ==> es[i].Thread?
    ensures var t := RunFrom(tests, s, es); t.test == s.test && t.pc == s.pc
    decreases |es|
  {
    if es == [] {
    } else {
      OnlyThreads(tests, Do(tests, s, es[0]), es[1..]);
    }
  }

  /** A test whose check passes can be brought to the start of the next one. */
  lemma ReachesNext(tests: seq<Job>, es: seq<Step>) returns (es': seq<Step>)
    requires var s := Run(tests, es);
      s.pc == SetFunc && s.test < |tests| && (tests[s.test].cb == Once || SomeLocalOk(tests, s.test))
    ensures var s, t := Run(tests, es), Run(tests, es'); t.pc == SetFunc && t.test == s.test + 1
  {
    Reachable(tests, es);
    var s := Run(tests, es);
    var fs := ReachesCheck(tests, s);
    CheckOutcome(tests, RunFrom(tests, s, fs));
    RunSplit(tests, s, fs, [Main(true)]);
    RunCons(tests, RunFrom(tests, s, fs), Main(true), []);
    assert [Main(true)] + [] == [Main(true)];
    RunSplit(tests, Init(), es, fs + [Main(true)]);
    es' := es + (fs + [Main(true)]);
  }

  /** So test_thread_local alone does not show that its callback worked: when threads_test runs a
      second time, a failing callback passes. */
  lemma StaleFlagPasses(w1: nat, w2: nat, w3: nat, w4: nat)
    ensures var tests := [Job(Once, w1), Job(Local(true), w2), Job(Once, w3), Job(Local(false), w4)];
      exists es :: var s := Run(tests, es);
        s.pc == Check && s.test == 3 && tests[3].cb == Local(false) && Passes(s, tests[3].cb)
  {
    var tests := [Job(Once, w1), Job(Local(true), w2), Job(Once, w3), Job(Local(false), w4)];
    assert tests[1].cb == Local(true);
    var es1 := ReachesNext(tests, []);
    var es2 := ReachesNext(tests, es1);
    var es3 := ReachesNext(tests, es2);
    Reachable(tests, es3);
    var fs := ReachesCheck(tests, Run(tests, es3));
    RunSplit(tests, Init(), es3, fs);
    LocalCheckExactly(tests, es3 + fs);
    assert Passes(Run(tests, es3 + fs), tests[3].cb);
  }
}
