/** Progress of the handshake of threadstest.c under every fair schedule: when all created threads
    enter the enclave and main and created threads keep taking steps, the tests come to an end. */
module ThreadsProgress {
  import opened ThreadsTest

  /** The tests are over: all done, or given up for want of a thread or after a failed check. */
  predicate Final(tests: seq<Job>, s: State) { s.test >= |tests| || s.pc in {NoThread, CheckFailed} }

  /** Steps for one test: six of the main thread, three of the created one and those of the callback. */
  function Cost(job: Job): nat { 9 + job.work }

  function CostFrom(tests: seq<Job>, k: nat): nat
    decreases |tests| - k
  {
    if k >= |tests| then 0 else Cost(tests[k]) + CostFrom(tests, k + 1)
  }

  /** The current thread was not turned away. */
  predicate Entered(s: State) { Waiting(s) && s.test < |s.threads| ==> s.threads[s.test] != Lost }

  ghost predicate Good(tests: seq<Job>, s: State) { Inv(tests, s) && Entered(s) }

  /** How many steps that change something are still to come. */
  function Measure(tests: seq<Job>, s: State): nat
    requires Waiting(s) ==> s.test < |s.threads|
  {
    if Final(tests, s) then 0
    else
      CostFrom(tests, s.test + 1) +
      match s.pc
      case SetFunc => Cost(tests[s.test])
      case SetBusy => 8 + tests[s.test].work
      case Create => 7 + tests[s.test].work
      case Spin => 3 + Remaining(s)
      case OwnCall => 2
      case _ => 1
  }

  /** A step of the schedules considered: created threads enter. */
  predicate Enters(e: Step) { e.Thread? ==> e.entered }

  /** A step of the main thread either changes nothing or brings the end nearer. */
  lemma MainStepDown(tests: seq<Job>, s: State, created: bool)
    requires Good(tests, s)
    ensures var t := MainStep(tests, s, created);
      Good(tests, t) && (t == s || Measure(tests, t) < Measure(tests, s))
  {
    MainPreserves(tests, s, created);
    var t := MainStep(tests, s, created);
    if t != s && s.pc == Check && t.test < |tests| {
      assert CostFrom(tests, t.test) == Cost(tests[t.test]) + CostFrom(tests, t.test + 1);
    }
  }

  lemma ThreadStepDown(tests: seq<Job>, s: State, id: nat)
    requires Good(tests, s)
    ensures var t := ThreadStep(s, id, true);
      Good(tests, t) && (t == s || Measure(tests, t) < Measure(tests, s))
  {
    ThreadPreserves(tests, s, id, true);
    var t := ThreadStep(s, id, true);
    if t != s {
      OnlyCurrentActive(tests, s, id);
      assert t.test == s.test && t.pc == Spin && t.func == s.func;
    }
  }

  lemma StepDown(tests: seq<Job>, s: State, e: Step)
    requires Good(tests, s) && Enters(e)
    ensures var t := Do(tests, s, e);
      Good(tests, t) && (t == s || Measure(tests, t) < Measure(tests, s))
  {
    match e {
      case Main(created) => MainStepDown(tests, s, created);
      case Thread(id, entered) => ThreadStepDown(tests, s, id);
    }
  }

  lemma {:induction false} RunDown(tests: seq<Job>, s: State, es: seq<Step>)
    requires Good(tests, s) && AllEnter(es)
    ensures var t := RunFrom(tests, s, es);
      Good(tests, t) && Measure(tests, t) <= Measure(tests, s)
    decreases |es|
  {
    if es == [] {
    } else {
      StepDown(tests, s, es[0]);
      RunDown(tests, Do(tests, s, es[0]), es[1..]);
    }
  }

  /** A piece of a schedule with a step that would change s brings the end nearer, wherever in the
      piece that step is: either something changes before, or it still does. */
  lemma {:induction false} PieceDown(tests: seq<Job>, s: State, es: seq<Step>, i: nat)
    requires Good(tests, s) && AllEnter(es) && i < |es| && Do(tests, s, es[i]) != s
    ensures var t := RunFrom(tests, s, es);
      Good(tests, t) && Measure(tests, t) < Measure(tests, s)
    decreases |es|
  {
    var s1 := Do(tests, s, es[0]);
    StepDown(tests, s, es[0]);
    if s1 != s {
      RunDown(tests, s1, es[1..]);
    } else {
      PieceDown(tests, s, es[1..], i - 1);
    }
  }

  /** A piece of a schedule in which the main thread and each of n created threads take a step. */
  ghost predicate Covers(es: seq<Step>, n: nat) {
    && AllEnter(es)
    && (exists i :: 0 <= i < |es| && es[i].Main?)
    && forall id: nat :: id < n ==> exists i :: 0 <= i < |es| && es[i] == Thread(id, true)
  }

  /** Somebody can always go on until the tests are over. */
  lemma SomeoneMoves(tests: seq<Job>, s: State)
    requires Good(tests, s) && !Final(tests, s)
    ensures (forall created :: MainStep(tests, s, created) != s) || ThreadStep(s, s.test, true) != s
  {
    if s.pc == Spin && s.busyWait == 1 {
      var t := ThreadStep(s, s.test, true);
      assert t.threads[s.test] != s.threads[s.test];
    }
  }

  lemma FairPieceDown(tests: seq<Job>, s: State, es: seq<Step>)
    requires Good(tests, s) && !Final(tests, s) && Covers(es, |tests|)
    ensures var t := RunFrom(tests, s, es);
      Good(tests, t) && Measure(tests, t) < Measure(tests, s)
  {
    SomeoneMoves(tests, s);
    if ThreadStep(s, s.test, true) != s {
      var i :| 0 <= i < |es| && es[i] == Thread(s.test, true);
      PieceDown(tests, s, es, i);
    } else {
      var i :| 0 <= i < |es| && es[i].Main?;
      PieceDown(tests, s, es, i);
    }
  }

  function Flatten(pieces: seq<seq<Step>>): seq<Step> {
    if pieces == [] then [] else pieces[0] + Flatten(pieces[1..])
  }

  /** Once over, the tests stay over. */
  lemma {:induction false} FinalStays(tests: seq<Job>, s: State, es: seq<Step>)
    requires Final(tests, s)
    ensures Final(tests, RunFrom(tests, s, es))
    decreases |es|
  {
    if es == [] {
    } else {
      FinalStays(tests, Do(tests, s, es[0]), es[1..]);
    }
  }

  lemma {:induction false} FairFrom(tests: seq<Job>, s: State, pieces: seq<seq<Step>>)
    requires Good(tests, s) && |pieces| >= Measure(tests, s)
    requires forall k :: 0 <= k < |pieces| ==> Covers(pieces[k], |tests|)
    ensures Final(tests, RunFrom(tests, s, Flatten(pieces)))
    decreases |pieces|
  {
    if Final(tests, s) {
      FinalStays(tests, s, Flatten(pieces));
    } else {
      assert Measure(tests, s) > 0;
      FairPieceDown(tests, s, pieces[0]);
      RunSplit(tests, s, pieces[0], Flatten(pieces[1..]));
      FairFrom(tests, RunFrom(tests, s, pieces[0]), pieces[1..]);
    }
  }

  /** How the tests end. */
  ghost predicate Ended(tests: seq<Job>, es: seq<Step>) {
    var s := Run(tests, es);
    && s.test <= |tests| && (forall k :: 0 <= k < s.test ==> Supported(tests, k))
    && (if s.test == |tests| then s.ran == tests
        else if s.pc == CheckFailed then !Supported(tests, s.test) && s.ran == tests[..s.test + 1]
        else s.pc == NoThread && !AllCreated(es) && s.ran == tests[..s.test])
  }

  /** Progress: every schedule made of enough pieces, in each of which the main thread and every
      thread take a step at any place and any number of times, ends the tests: all are done and
      passed; or one failed its check, which no callback by then supports; or a thread could not be
      created.  The tests before passed, and exactly the callbacks started until then have run. */
  lemma FairRunEnds(tests: seq<Job>, pieces: seq<seq<Step>>)
    requires |pieces| >= CostFrom(tests, 0)
    requires forall k :: 0 <= k < |pieces| ==> Covers(pieces[k], |tests|)
    ensures Ended(tests, Flatten(pieces))
  {
    var es := Flatten(pieces);
    Reachable(tests, []);
    FairFrom(tests, Init(), pieces);
    ChecksDecide(tests, es);
    CallbacksRunOnceInOrder(tests, es);
    Reachable(tests, es);
    if AllCreated(es) { CreatedFrom(tests, Init(), es); }
    assert tests[..|tests|] == tests;
  }

  /** Every test passes its check: each local one comes with or after a callback that succeeds. */
  ghost predicate AllSupported(tests: seq<Job>) { forall k :: 0 <= k < |tests| ==> Supported(tests, k) }

  /** When every thread can be created, a fair run ends with all tests passed and all callbacks run,
      in order, exactly if every local test comes with or after a callback that succeeds; otherwise
      it ends with the check of the first that does not. */
  lemma FairRunCompletes(tests: seq<Job>, pieces: seq<seq<Step>>)
    requires |pieces| >= CostFrom(tests, 0)
    requires forall k :: 0 <= k < |pieces| ==> Covers(pieces[k], |tests|)
    requires AllCreated(Flatten(pieces))
    ensures var s := Run(tests, Flatten(pieces));
      && (s.test == |tests| && s.ran == tests <==> AllSupported(tests))
      && (!AllSupported(tests) ==>
           s.pc == CheckFailed && s.test < |tests| && !Supported(tests, s.test)
           && forall k :: 0 <= k < s.test ==> Supported(tests, k))
  {
    FairRunEnds(tests, pieces);
  }
}
