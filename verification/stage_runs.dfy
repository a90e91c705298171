/**
 * The stepper and the executor together, as one deterministic run: which application starts
 * the stepper begins a frame for, and when it misses one.
 */
module StageRuns {
  import opened StageTree
  import opened StageCandidates
  import opened StageExecutor

  /** What the stepper can read off the executor at a pause. */
  datatype Stop = Stop(curstart: int, tests: seq<nat>)

  /** The executor, the last pause with its armed frontier, and the nodes begun so far with the
      readings at their pauses. */
  datatype Run = Run(e: Exec, g: Gap, begun: seq<nat>, stops: seq<Stop>)

  ghost predicate ValidRun(p: Pipeline, r: Run) {
    ValidExec(p, r.e) && Statuses(p, r.g.was) && r.g.n < |p.nodes|
  }

  ghost function PausedAt(p: Pipeline, e: Exec): Gap
    requires ValidExec(p, e) && Starting(e)
  {
    Gap(e.ended, e.ctl.node, Frontier(p, e.ended, e.ctl.node))
  }

  /** A pause at the start of a node: its frame begins, its frontier is armed, it resumes. */
  ghost function Pause(p: Pipeline, e: Exec, begun: seq<nat>, stops: seq<Stop>): (r: Run)
    requires ValidExec(p, e) && Starting(e)
    ensures ValidRun(p, r)
  {
    Run(Resume(p, e), PausedAt(p, e), begun + [e.ctl.node], stops + [Stop(e.curstart, e.tests)])
  }

  /** The break on the root's own start fires at once. */
  ghost function First(p: Pipeline): (r: Run)
    requires ValidPipeline(p)
    ensures ValidRun(p, r)
  {
    Pause(p, Initial(p), [], [])
  }

  ghost function Advance(p: Pipeline, r: Run, choice: Choice): (r': Run)
    requires ValidRun(p, r)
    ensures ValidRun(p, r')
  {
    if r.e.ctl.Finished? then r
    else if Starting(r.e) && r.e.ctl.node in r.g.armed then Pause(p, r.e, r.begun, r.stops)
    else r.(e := Step(p, r.e, choice))
  }

  ghost function Drive(p: Pipeline, r: Run, cs: seq<Choice>): (r': Run)
    requires ValidRun(p, r)
    ensures ValidRun(p, r')
    decreases |cs|
  {
    if cs == [] then r else Advance(p, Drive(p, r, cs[..|cs| - 1]), cs[|cs| - 1])
  }

  lemma {:induction false} DriveConcat(p: Pipeline, r: Run, a: seq<Choice>, b: seq<Choice>)
    requires ValidRun(p, r)
    ensures Drive(p, r, a + b) == Drive(p, Drive(p, r, a), b)
    decreases |b|
  {
    if b == [] {
      assert a + b == a;
    } else {
      var init := b[..|b| - 1];
      DriveConcat(p, r, a, init);
      assert (a + b)[..|a + b| - 1] == a + init;
    }
  }

  lemma DriveNext(p: Pipeline, r: Run, cs: seq<Choice>, k: nat)
    requires ValidRun(p, r) && k < |cs|
    ensures Drive(p, r, cs[..k + 1]) == Advance(p, Drive(p, r, cs[..k]), cs[k])
  {
    assert cs[..k + 1][..k] == cs[..k];
  }

  lemma {:induction false} FinishedStays(p: Pipeline, cs: seq<Choice>, k: nat)
    requires ValidPipeline(p) && k <= |cs| && Drive(p, First(p), cs[..k]).e.ctl.Finished?
    ensures Drive(p, First(p), cs) == Drive(p, First(p), cs[..k])
    decreases |cs| - k
  {
    if k < |cs| {
      DriveNext(p, First(p), cs, k);
      FinishedStays(p, cs, k + 1);
    } else {
      assert cs[..k] == cs;
    }
  }

  /** `at` is the run, choice by choice. */
  ghost predicate Tracks(p: Pipeline, cs: seq<Choice>, at: nat -> Run)
    requires ValidPipeline(p)
  {
    forall k: nat {:trigger cs[..k]} | k <= |cs| :: at(k) == Drive(p, First(p), cs[..k])
  }

  lemma Track(p: Pipeline, cs: seq<Choice>) returns (at: nat -> Run)
    requires ValidPipeline(p)
    ensures Tracks(p, cs, at) && at(0) == First(p)
    ensures at(|cs|) == Drive(p, First(p), cs)
  {
    at := (k: nat) => if k <= |cs| then Drive(p, First(p), cs[..k]) else First(p);
    assert cs[..|cs|] == cs;
  }

  lemma TrackNext(p: Pipeline, cs: seq<Choice>, at: nat -> Run, k: nat)
    requires ValidPipeline(p) && Tracks(p, cs, at) && k < |cs|
    ensures ValidRun(p, at(k)) && at(k + 1) == Advance(p, at(k), cs[k])
  {
    DriveNext(p, First(p), cs, k);
  }

  lemma TrackEnd(p: Pipeline, cs: seq<Choice>, at: nat -> Run, k: nat)
    requires ValidPipeline(p) && Tracks(p, cs, at) && k <= |cs| && at(k).e.ctl.Finished?
    ensures at(k) == Drive(p, First(p), cs)
  {
    assert at(k) == Drive(p, First(p), cs[..k]);
    FinishedStays(p, cs, k);
  }

  // ---------- When a start is missed ----------

  /** This restart re-enters a first child that the armed frontier does not contain, because
      it had ended at the last pause. */
  ghost predicate Unseen(p: Pipeline, r: Run, choice: Choice)
    requires ValidRun(p, r)
  {
    r.e.ctl == PassEnd(0) && choice.root == Restart && r.g.was[FirstChild(p)]
  }

  /** The `k`-th transition is such a restart, and the run goes on. */
  ghost predicate Slips(p: Pipeline, cs: seq<Choice>, k: nat)
    requires ValidPipeline(p)
  {
    k + 1 < |cs| && Unseen(p, Drive(p, First(p), cs[..k]), cs[k])
  }

  ghost predicate NoSlip(p: Pipeline, cs: seq<Choice>)
    requires ValidPipeline(p)
  {
    forall k: nat :: !Slips(p, cs, k)
  }

  ghost predicate Seen(p: Pipeline, r: Run)
    requires ValidRun(p, r)
  {
    && Covered(p, r.g, r.e) && r.begun == r.e.log
    && r.g.armed == Frontier(p, r.g.was, r.g.n)
    && (r.g.n == 0 ==> !r.g.was[FirstChild(p)])
  }

  lemma PauseSeen(p: Pipeline, e: Exec, begun: seq<nat>, stops: seq<Stop>)
    requires ValidExec(p, e) && Starting(e) && PathOpen(p, e.ended, e.ctl.node) && begun == e.log
    requires e.ctl.node == 0 ==> !e.ended[FirstChild(p)]
    ensures Seen(p, Pause(p, e, begun, stops))
  {
    ResumeCovered(p, e, Frontier(p, e.ended, e.ctl.node));
  }

  lemma AdvanceSeen(p: Pipeline, r: Run, choice: Choice)
    requires ValidRun(p, r) && Seen(p, r) && !Unseen(p, r, choice)
    ensures Seen(p, Advance(p, r, choice))
  {
    if !r.e.ctl.Finished? {
      if Starting(r.e) {
        StartIsArmed(p, r.g, r.e);
        FrontierSound(p, r.g.was, r.g.n, r.e.ctl.node);
        PauseSeen(p, r.e, r.begun, r.stops);
      } else {
        StepCovered(p, r.g, r.e, choice);
      }
    }
  }

  /** The run is seen up to its first unseen restart. */
  lemma {:induction false} DriveSeen(p: Pipeline, cs: seq<Choice>, n: nat)
    requires ValidPipeline(p) && n <= |cs|
    requires forall k | 0 <= k < n :: !Unseen(p, Drive(p, First(p), cs[..k]), cs[k])
    ensures Seen(p, Drive(p, First(p), cs[..n]))
    decreases n
  {
    if n == 0 {
      PauseSeen(p, Initial(p), [], []);
    } else {
      DriveSeen(p, cs, n - 1);
      DriveNext(p, First(p), cs, n - 1);
      AdvanceSeen(p, Drive(p, First(p), cs[..n - 1]), cs[n - 1]);
    }
  }

  lemma SeenBefore(p: Pipeline, cs: seq<Choice>, k: nat)
    requires ValidPipeline(p) && NoSlip(p, cs) && k < |cs|
    ensures Seen(p, Drive(p, First(p), cs[..k]))
  {
    forall j: nat | j < k ensures !Unseen(p, Drive(p, First(p), cs[..j]), cs[j]) { assert !Slips(p, cs, j); }
    DriveSeen(p, cs, k);
  }

  /** Starts the stepper has missed. */
  ghost function Missed(r: Run): int { |r.e.log| - |r.begun| }

  lemma AdvanceMisses(p: Pipeline, r: Run, choice: Choice)
    requires ValidRun(p, r)
    ensures Missed(r) <= Missed(Advance(p, r, choice))
  {
  }

  lemma {:induction false} DriveMisses(p: Pipeline, r: Run, cs: seq<Choice>)
    requires ValidRun(p, r)
    ensures Missed(r) <= Missed(Drive(p, r, cs))
    decreases |cs|
  {
    if cs != [] {
      DriveMisses(p, r, cs[..|cs| - 1]);
      AdvanceMisses(p, Drive(p, r, cs[..|cs| - 1]), cs[|cs| - 1]);
    }
  }

  lemma {:induction false} ArmedIsFrontier(p: Pipeline, cs: seq<Choice>)
    requires ValidPipeline(p)
    ensures var g := Drive(p, First(p), cs).g; g.armed == Frontier(p, g.was, g.n)
    decreases |cs|
  {
    if cs != [] { ArmedIsFrontier(p, cs[..|cs| - 1]); }
  }

  /** After an unseen restart the first child starts without a pause. */
  lemma UnseenStarts(p: Pipeline, r: Run, choice: Choice, next: Choice)
    requires ValidRun(p, r) && Unseen(p, r, choice) && r.g.armed == Frontier(p, r.g.was, r.g.n)
    ensures var r' := Advance(p, Advance(p, r, choice), next);
      r'.begun == r.begun && r'.e.log == r.e.log + [FirstChild(p)]
  {
    if FirstChild(p) in r.g.armed { FrontierSound(p, r.g.was, r.g.n, FirstChild(p)); }
    var r1 := Advance(p, r, choice);
    assert r1 == r.(e := Step(p, r.e, choice));
    assert r1.e.ctl == Enter(FirstChild(p)) && Starting(r1.e);
  }

  lemma {:induction false} MissedLater(p: Pipeline, r: Run, cs: seq<Choice>, k: nat)
    requires ValidRun(p, r) && k <= |cs|
    ensures Missed(Drive(p, r, cs[..k])) <= Missed(Drive(p, r, cs))
    decreases |cs|
  {
    if k < |cs| {
      var init := cs[..|cs| - 1];
      assert init[..k] == cs[..k];
      MissedLater(p, r, init, k);
      AdvanceMisses(p, Drive(p, r, init), cs[|cs| - 1]);
    } else {
      assert cs[..k] == cs;
    }
  }

  lemma TwoMore(p: Pipeline, r: Run, cs: seq<Choice>, k: nat)
    requires ValidRun(p, r) && k + 1 < |cs|
    ensures Drive(p, r, cs[..k + 2]) == Advance(p, Advance(p, Drive(p, r, cs[..k]), cs[k]), cs[k + 1])
  {
    DriveNext(p, r, cs, k);
    DriveNext(p, r, cs, k + 1);
  }

  lemma SlipMisses(p: Pipeline, cs: seq<Choice>, k: nat)
    requires ValidPipeline(p) && Slips(p, cs, k)
    ensures Missed(Drive(p, First(p), cs)) > 0
  {
    DriveMisses(p, First(p), cs[..k]);
    ArmedIsFrontier(p, cs[..k]);
    UnseenStarts(p, Drive(p, First(p), cs[..k]), cs[k], cs[k + 1]);
    TwoMore(p, First(p), cs, k);
    MissedLater(p, First(p), cs, k + 2);
  }

  /** The frames begun are exactly the applications started, in order, if and only if no
      restart re-entered a first child that had ended at the pause before it. */
  lemma BegunExactly(p: Pipeline, cs: seq<Choice>)
    requires ValidPipeline(p)
    ensures Drive(p, First(p), cs).begun == Drive(p, First(p), cs).e.log <==> NoSlip(p, cs)
  {
    if NoSlip(p, cs) {
      if cs == [] {
        PauseSeen(p, Initial(p), [], []);
      } else {
        var n := |cs| - 1;
        SeenBefore(p, cs, n);
        DriveNext(p, First(p), cs, n);
        assert cs[..n + 1] == cs;
        var r := Drive(p, First(p), cs[..n]);
        if !Unseen(p, r, cs[n]) { AdvanceSeen(p, r, cs[n]); }
      }
    } else {
      var k: nat :| Slips(p, cs, k);
      SlipMisses(p, cs, k);
    }
  }

  // ---------- What the counters count ----------

  /** Every frame begun has one reading, and count_tests counts the starts no frame was begun for. */
  ghost predicate Tallied(r: Run) {
    && |r.stops| == |r.begun| > 0
    && forall n: nat | n < |r.e.tests| :: r.e.tests[n] + multiset(r.begun)[n] == multiset(r.e.log)[n]
  }

  /** An advance starts at most one application: seen by a new frame, or unseen and counted. */
  lemma AdvanceStarts(p: Pipeline, r: Run, choice: Choice)
    requires ValidRun(p, r)
    ensures var r' := Advance(p, r, choice);
      if Starting(r.e) then
        var n := r.e.ctl.node;
        && r'.e.log == r.e.log + [n]
        && ((r'.begun == r.begun + [n] && |r'.stops| == |r.stops| + 1 && r'.e.tests == r.e.tests)
            || (r'.begun == r.begun && r'.stops == r.stops && r'.e.tests == r.e.tests[n := r.e.tests[n] + 1]))
      else r'.e.log == r.e.log && r'.begun == r.begun && r'.stops == r.stops && r'.e.tests == r.e.tests
  {
  }

  lemma AdvanceCounts(p: Pipeline, r: Run, choice: Choice)
    requires ValidRun(p, r) && Tallied(r)
    ensures Tallied(Advance(p, r, choice))
  {
    var r' := Advance(p, r, choice);
    AdvanceStarts(p, r, choice);
    if Starting(r.e) { StartTallied(r.e.ctl.node, r, r'); }
  }

  lemma StartTallied(n: nat, r: Run, r': Run)
    requires Tallied(r) && n < |r.e.tests| && r'.e.log == r.e.log + [n]
    requires (r'.begun == r.begun + [n] && |r'.stops| == |r.stops| + 1 && r'.e.tests == r.e.tests)
      || (r'.begun == r.begun && r'.stops == r.stops && r'.e.tests == r.e.tests[n := r.e.tests[n] + 1])
    ensures Tallied(r')
  {
    assert multiset(r'.e.log) == multiset(r.e.log) + multiset{n};
    assert multiset(r.begun + [n]) == multiset(r.begun) + multiset{n};
  }

  lemma {:induction false} TestsCountUnseen(p: Pipeline, cs: seq<Choice>)
    requires ValidPipeline(p)
    ensures Tallied(Drive(p, First(p), cs))
    decreases |cs|
  {
    if cs != [] {
      TestsCountUnseen(p, cs[..|cs| - 1]);
      AdvanceCounts(p, Drive(p, First(p), cs[..|cs| - 1]), cs[|cs| - 1]);
    }
  }

  // ---------- What the restart count counts ----------

  /** The root is at the end of a pass when the `k`-th choice is taken. */
  ghost predicate AtRootEnd(p: Pipeline, cs: seq<Choice>, k: nat)
    requires ValidPipeline(p)
  {
    k < |cs| && Drive(p, First(p), cs[..k]).e.ctl == PassEnd(0)
  }

  /** The restarts called for so far, with or without a restart flow. */
  ghost function Restarts(p: Pipeline, cs: seq<Choice>, n: nat): nat
    requires ValidPipeline(p) && n <= |cs|
  {
    if n == 0 then 0
    else Restarts(p, cs, n - 1) + (if AtRootEnd(p, cs, n - 1) && (cs[n - 1].root == Restart || cs[n - 1].root == Forgo) then 1 else 0)
  }

  /** Some pass of the root so far ended with nothing pending. */
  ghost predicate Converged(p: Pipeline, cs: seq<Choice>, n: nat)
    requires ValidPipeline(p) && n <= |cs|
  {
    n > 0 && (Converged(p, cs, n - 1) || (AtRootEnd(p, cs, n - 1) && cs[n - 1].root == Converge))
  }

  ghost predicate CountIs(e: Exec, converged: bool, restarts: nat) {
    if converged then e.curstart == -1 && Unwound(e) else e.curstart == restarts
  }

  lemma AdvanceCurstart(p: Pipeline, r: Run, choice: Choice)
    requires ValidRun(p, r)
    ensures var r' := Advance(p, r, choice);
      && r'.e.curstart == (if r.e.ctl != PassEnd(0) || choice.root == Yield then r.e.curstart
                           else if choice.root == Converge then -1 else r.e.curstart + 1)
      && (r.e.ctl == PassEnd(0) && choice.root == Converge ==> r'.e.ctl == Back(0))
      && (Unwound(r.e) ==> Unwound(r'.e))
  {
    if r.e.ctl.Back? { RootRow(p.nodes, r.e.ctl.node); }
  }

  /** The restart count that the stepper reads is the number of restarts called for, until the
      root converges; from then on it is -1. */
  lemma {:induction false} CurstartCounts(p: Pipeline, cs: seq<Choice>, n: nat)
    requires ValidPipeline(p) && n <= |cs|
    ensures CountIs(Drive(p, First(p), cs[..n]).e, Converged(p, cs, n), Restarts(p, cs, n))
    decreases n
  {
    if n > 0 {
      var k := n - 1;
      CurstartCounts(p, cs, k);
      DriveNext(p, First(p), cs, k);
      CountAdvances(p, Drive(p, First(p), cs[..k]), cs[k], Converged(p, cs, k), Restarts(p, cs, k));
    }
  }

  lemma CountAdvances(p: Pipeline, r: Run, choice: Choice, converged: bool, restarts: nat)
    requires ValidRun(p, r) && CountIs(r.e, converged, restarts)
    ensures CountIs(Advance(p, r, choice).e, converged || (r.e.ctl == PassEnd(0) && choice.root == Converge),
      restarts + (if r.e.ctl == PassEnd(0) && (choice.root == Restart || choice.root == Forgo) then 1 else 0))
  {
    AdvanceCurstart(p, r, choice);
  }

  // ---------- Pipelines that never miss a start ----------

  /** The first child can reach STATUS_END. */
  ghost predicate CanEnd(p: Pipeline)
    requires ValidPipeline(p)
  {
    var first := FirstChild(p);
    p.acts[first].Once() || (p.acts[first].OneAct() && exists x: nat :: LeafBelow(p, first, x))
  }

  ghost predicate LeafBelow(p: Pipeline, n: nat, x: nat)
    requires ValidPipeline(p)
  {
    x < |p.nodes| && AncOrSelf(p, n, x) && !p.acts[x].isGroup
  }

  /** Nothing below `n` has changed the function. */
  ghost predicate Unchanged(p: Pipeline, r: Run, n: nat)
    requires ValidRun(p, r)
  {
    && (forall x | 0 <= x < |p.nodes| && AncOrSelf(p, n, x) :: !r.e.any[x])
    && (r.e.ctl.Back? && AncOrSelf(p, n, r.e.ctl.node) ==> !r.e.ret)
  }

  /** The first child has not ended, and one that ends on change has seen none. */
  ghost predicate Idle(p: Pipeline, r: Run)
    requires ValidRun(p, r)
  {
    var first := FirstChild(p);
    !r.e.ended[first] && !r.g.was[first] && (p.acts[first].OneAct() ==> Unchanged(p, r, first))
  }

  /** Without a leaf below `n` nothing there can change. */
  lemma AdvanceUnchanged(p: Pipeline, r: Run, choice: Choice, n: nat)
    requires ValidRun(p, r) && Unchanged(p, r, n) && 0 < n < |p.nodes| && forall x: nat :: !LeafBelow(p, n, x)
    ensures Unchanged(p, Advance(p, r, choice), n)
  {
    if !r.e.ctl.Finished? {
      var c := r.e.ctl.node;
      assert !LeafBelow(p, n, c);
      RootRow(p.nodes, c);
      if c > 0 { assert LinkedUp(p.nodes, c); }
      if r.e.ctl.Enter? { EnterAdvance(p, r, c, choice); }
    }
  }

  lemma AdvanceOpen(p: Pipeline, r: Run, choice: Choice, n: nat)
    requires ValidRun(p, r) && 0 < n < |p.nodes| && !r.e.ended[n] && !r.g.was[n]
    requires !p.acts[n].Once() && (p.acts[n].OneAct() ==> !r.e.any[n])
    ensures !Advance(p, r, choice).e.ended[n] && !Advance(p, r, choice).g.was[n]
  {
    if r.e.ctl.Enter? { EnterAdvance(p, r, r.e.ctl.node, choice); }
  }

  lemma AdvanceIdle(p: Pipeline, r: Run, choice: Choice)
    requires ValidRun(p, r) && Idle(p, r) && !CanEnd(p)
    ensures Idle(p, Advance(p, r, choice))
  {
    var first := FirstChild(p);
    assert AncOrSelf(p, first, first);
    AdvanceOpen(p, r, choice, first);
    if p.acts[first].OneAct() { AdvanceUnchanged(p, r, choice, first); }
  }

  lemma {:induction false} DriveIdle(p: Pipeline, cs: seq<Choice>)
    requires ValidPipeline(p) && !CanEnd(p)
    ensures Idle(p, Drive(p, First(p), cs))
    decreases |cs|
  {
    if cs != [] {
      DriveIdle(p, cs[..|cs| - 1]);
      AdvanceIdle(p, Drive(p, First(p), cs[..|cs| - 1]), cs[|cs| - 1]);
    }
  }

  /** With a single root child, that child is open at every pause below the root. */
  lemma OnlyChildOpen(p: Pipeline, r: Run)
    requires ValidRun(p, r) && Seen(p, r) && |p.nodes[0].children| == 1
    ensures !r.g.was[FirstChild(p)]
  {
    if r.g.n > 0 {
      assert LinkedUp(p.nodes, r.g.n);
      RootIsAnc(p, p.nodes[r.g.n].parent.value);
      var q := Toward(p, 0, r.g.n);
      assert q == FirstChild(p);
    }
  }

  lemma OnlyChildStep(p: Pipeline, r: Run, choice: Choice)
    requires ValidRun(p, r) && Seen(p, r) && !r.g.was[FirstChild(p)] && |p.nodes[0].children| == 1
    ensures Seen(p, Advance(p, r, choice)) && !Advance(p, r, choice).g.was[FirstChild(p)]
  {
    AdvanceSeen(p, r, choice);
    OnlyChildOpen(p, Advance(p, r, choice));
  }

  lemma {:induction false} OnlyChildSeen(p: Pipeline, cs: seq<Choice>)
    requires ValidPipeline(p) && |p.nodes[0].children| == 1
    ensures Seen(p, Drive(p, First(p), cs)) && !Drive(p, First(p), cs).g.was[FirstChild(p)]
    decreases |cs|
  {
    if cs == [] {
      PauseSeen(p, Initial(p), [], []);
    } else {
      OnlyChildSeen(p, cs[..|cs| - 1]);
      OnlyChildStep(p, Drive(p, First(p), cs[..|cs| - 1]), cs[|cs| - 1]);
    }
  }

  // ---------- Reaching the end of a pass ----------

  const QUIET := Choice(false, Converge)
  const LOUD := Choice(true, Converge)

  ghost predicate Restartless(cs: seq<Choice>) {
    forall c | c in cs :: c.root != Restart
  }

  /** Some choices without a restart lead from `a` to `b`. */
  ghost predicate Reaches(p: Pipeline, a: Run, b: Run)
    requires ValidRun(p, a)
  {
    exists cs: seq<Choice> :: Restartless(cs) && Drive(p, a, cs) == b
  }

  lemma ReachSelf(p: Pipeline, a: Run)
    requires ValidRun(p, a)
    ensures Reaches(p, a, a)
  {
    assert Restartless([]) && Drive(p, a, []) == a;
  }

  lemma ReachStep(p: Pipeline, a: Run, b: Run, choice: Choice)
    requires ValidRun(p, a) && ValidRun(p, b) && Reaches(p, a, b) && choice.root != Restart
    ensures Reaches(p, a, Advance(p, b, choice))
  {
    var cs: seq<Choice> :| Restartless(cs) && Drive(p, a, cs) == b;
    assert (cs + [choice])[..|cs|] == cs;
    assert Restartless(cs + [choice]) && Drive(p, a, cs + [choice]) == Advance(p, b, choice);
  }

  lemma ReachNext(p: Pipeline, a: Run, choice: Choice)
    requires ValidRun(p, a) && choice.root != Restart
    ensures Reaches(p, a, Advance(p, a, choice))
  {
    ReachSelf(p, a);
    ReachStep(p, a, a, choice);
  }

  lemma ReachTrans(p: Pipeline, a: Run, b: Run, c: Run)
    requires ValidRun(p, a) && ValidRun(p, b) && Reaches(p, a, b) && Reaches(p, b, c)
    ensures Reaches(p, a, c)
  {
    var xs: seq<Choice> :| Restartless(xs) && Drive(p, a, xs) == b;
    var ys: seq<Choice> :| Restartless(ys) && Drive(p, b, ys) == c;
    DriveConcat(p, a, xs, ys);
    assert Restartless(xs + ys);
  }

  /** What a stretch of a run leaves as it was at `y`. */
  ghost predicate Kept(p: Pipeline, a: Run, b: Run, y: nat)
    requires ValidRun(p, a) && ValidRun(p, b) && y < |p.nodes|
  {
    && b.e.ended[y] == a.e.ended[y] && b.e.grew[y] == a.e.grew[y] && b.e.any[y] == a.e.any[y]
    && (a.e.ended[y] && a.g.was[y] ==> b.g.was[y])
  }

  ghost predicate KeptAll(p: Pipeline, a: Run, b: Run)
    requires ValidRun(p, a) && ValidRun(p, b)
  {
    forall y | 0 <= y < |p.nodes| :: Kept(p, a, b, y)
  }

  ghost predicate Apart(p: Pipeline, n: nat, a: Run, b: Run)
    requires ValidRun(p, a) && ValidRun(p, b)
  {
    forall y | 0 <= y < |p.nodes| && !AncOrSelf(p, n, y) :: Kept(p, a, b, y)
  }

  /** Row `y` lies below none of the children `k .. j` of `n`. */
  ghost predicate Clear(p: Pipeline, n: nat, k: nat, j: nat, y: nat)
    requires ValidPipeline(p) && n < |p.nodes| && j <= |p.nodes[n].children| && y < |p.nodes|
  {
    forall i | k <= i < j :: !AncOrSelf(p, Kid(p, n, i), y)
  }

  ghost predicate ApartKids(p: Pipeline, n: nat, k: nat, j: nat, a: Run, b: Run)
    requires ValidRun(p, a) && ValidRun(p, b) && n < |p.nodes| && j <= |p.nodes[n].children|
  {
    forall y | 0 <= y < |p.nodes| && Clear(p, n, k, j, y) :: Kept(p, a, b, y)
  }

  lemma KidBelow(p: Pipeline, n: nat, i: nat, y: nat)
    requires ValidPipeline(p) && n < |p.nodes| && i < |p.nodes[n].children| && y < |p.nodes|
    requires AncOrSelf(p, Kid(p, n, i), y)
    ensures AncOrSelf(p, n, y) && y != n
  {
    var c := Kid(p, n, i);
    AncOrder(p, c, y);
    assert LinkedUp(p.nodes, c) && AncOrSelf(p, n, c);
    AncTransitive(p, n, c, y);
  }

  /** A row outside the subtree of `n`, and `n` itself, is below no child of `n`. */
  lemma OutsideIsClear(p: Pipeline, n: nat, k: nat, j: nat, y: nat)
    requires ValidPipeline(p) && n < |p.nodes| && j <= |p.nodes[n].children| && y < |p.nodes|
    requires y == n || !AncOrSelf(p, n, y)
    ensures Clear(p, n, k, j, y)
  {
    forall i | k <= i < j ensures !AncOrSelf(p, Kid(p, n, i), y) {
      if AncOrSelf(p, Kid(p, n, i), y) { KidBelow(p, n, i, y); }
    }
  }

  lemma KidsInside(p: Pipeline, n: nat, k: nat, j: nat, a: Run, b: Run)
    requires ValidRun(p, a) && ValidRun(p, b) && n < |p.nodes| && j <= |p.nodes[n].children|
    requires ApartKids(p, n, k, j, a, b)
    ensures Apart(p, n, a, b) && Kept(p, a, b, n)
  {
    forall y | 0 <= y < |p.nodes| && (y == n || !AncOrSelf(p, n, y)) ensures Kept(p, a, b, y) {
      OutsideIsClear(p, n, k, j, y);
    }
  }

  /** Where control is before child `k` of `n`: past the last child the pass is over. */
  ghost function SlotCtl(p: Pipeline, n: nat, k: nat): Control
    requires ValidPipeline(p) && n < |p.nodes| && k <= |p.nodes[n].children|
  {
    if k < |p.nodes[n].children| then Enter(Kid(p, n, k)) else PassEnd(n)
  }

  /** Entering a node: skipped if it has ended, else about to be applied. */
  lemma EnterAdvance(p: Pipeline, r: Run, n: nat, choice: Choice)
    requires ValidRun(p, r) && r.e.ctl == Enter(n)
    ensures var r' := Advance(p, r, choice);
      && r'.e.ended == r.e.ended
      && (r'.g == r.g || r'.g.was == r.e.ended)
      && if r.e.ended[n] then r'.e.ctl == Back(n) && !r'.e.ret && r'.e.grew == r.e.grew && r'.e.any == r.e.any
         else r'.e.ctl == Apply(n) && r'.e.grew == r.e.grew[n := false] && r'.e.any == r.e.any[n := false]
  {
  }

  lemma EnterStep(p: Pipeline, r: Run, n: nat) returns (r': Run)
    requires ValidRun(p, r) && r.e.ctl == Enter(n)
    ensures ValidRun(p, r') && Reaches(p, r, r') && Apart(p, n, r, r') && r'.e.ended == r.e.ended
    ensures if r.e.ended[n] then r'.e.ctl == Back(n) && !r'.e.ret
      else r'.e.ctl == Apply(n) && !r'.e.grew[n] && !r'.e.any[n]
  {
    r' := Advance(p, r, QUIET);
    ReachNext(p, r, QUIET);
    EnterAdvance(p, r, n, QUIET);
    EnterApart(p, n, r, r');
  }

  lemma EnterApart(p: Pipeline, n: nat, a: Run, b: Run)
    requires ValidRun(p, a) && ValidRun(p, b) && n < |p.nodes|
    requires b.e.ended == a.e.ended && (b.g == a.g || b.g.was == a.e.ended)
    requires forall y | 0 <= y < |p.nodes| && y != n :: b.e.grew[y] == a.e.grew[y] && b.e.any[y] == a.e.any[y]
    ensures Apart(p, n, a, b)
  {
    assert AncOrSelf(p, n, n);
  }

  lemma BackAdvance(p: Pipeline, r: Run, n: nat, k: nat, choice: Choice)
    requires ValidRun(p, r) && n < |p.nodes| && k < |p.nodes[n].children| && r.e.ctl == Back(Kid(p, n, k))
    ensures var r' := Advance(p, r, choice);
      && r'.g == r.g && r'.e.ctl == SlotCtl(p, n, k + 1) && r'.e.ended == r.e.ended
      && r'.e.grew == r.e.grew[n := r.e.grew[n] || r.e.ret] && r'.e.any == r.e.any[n := r.e.any[n] || r.e.ret]
  {
    assert LinkedUp(p.nodes, Kid(p, n, k));
  }

  /** Control moves on from child `k`. */
  lemma BackStep(p: Pipeline, r: Run, n: nat, k: nat) returns (r': Run)
    requires ValidRun(p, r) && n < |p.nodes| && k < |p.nodes[n].children| && r.e.ctl == Back(Kid(p, n, k))
    ensures ValidRun(p, r') && Reaches(p, r, r') && r'.g == r.g
    ensures r'.e.ctl == SlotCtl(p, n, k + 1) && r'.e.ended == r.e.ended
    ensures r'.e.grew == r.e.grew[n := r.e.grew[n] || r.e.ret] && r'.e.any == r.e.any[n := r.e.any[n] || r.e.ret]
    ensures !r.e.ret ==> KeptAll(p, r, r')
  {
    r' := Advance(p, r, QUIET);
    ReachNext(p, r, QUIET);
    BackAdvance(p, r, n, k, QUIET);
  }

  /** After its pass a node that has not grown, or does not repeat, completes. */
  lemma CompleteStep(p: Pipeline, a: Run, r: Run, n: nat) returns (r': Run)
    requires ValidRun(p, a) && ValidRun(p, r) && Reaches(p, a, r) && Apart(p, n, a, r)
    requires 0 < n < |p.nodes| && r.e.ctl == PassEnd(n) && !(r.e.grew[n] && p.acts[n].Repeats())
    ensures ValidRun(p, r') && Reaches(p, a, r') && Apart(p, n, a, r')
    ensures r'.e.ctl == Back(n) && r'.e.ret == r.e.any[n]
    ensures r'.e.ended[n] == (p.acts[n].Once() || (p.acts[n].OneAct() && r.e.any[n]))
  {
    r' := Advance(p, r, QUIET);
    ReachStep(p, a, r, QUIET);
    CompleteApart(p, n, a, r, r');
  }

  /** From inside its application, an unchanged node completes without a change. */
  lemma QuietBody(p: Pipeline, r: Run, n: nat) returns (r': Run)
    requires ValidRun(p, r) && n > 0 && r.e.ctl == Apply(n) && !r.e.grew[n] && !r.e.any[n]
    ensures ValidRun(p, r') && Reaches(p, r, r') && Apart(p, n, r, r')
    ensures r'.e.ctl == Back(n) && !r'.e.ret && r'.e.ended[n] == p.acts[n].Once()
    decreases |p.nodes| - n, |p.nodes[n].children| + 1
  {
    var r1 := QuietPass(p, r, n);
    r' := CompleteStep(p, r, r1, n);
  }

  /** Applying a node that has not grown, with no change of its own. */
  lemma ApplyStep(p: Pipeline, r: Run, n: nat) returns (r': Run)
    requires ValidRun(p, r) && r.e.ctl == Apply(n) && !r.e.grew[n]
    ensures ValidRun(p, r') && Reaches(p, r, r') && KeptAll(p, r, r')
    ensures r'.e.ctl == SlotCtl(p, n, 0)
  {
    r' := Advance(p, r, QUIET);
    ReachNext(p, r, QUIET);
  }

  /** One pass over `n` that changes nothing below it. */
  lemma QuietPass(p: Pipeline, r: Run, n: nat) returns (r': Run)
    requires ValidRun(p, r) && r.e.ctl == Apply(n) && !r.e.grew[n]
    ensures ValidRun(p, r') && Reaches(p, r, r') && Apart(p, n, r, r') && Kept(p, r, r', n)
    ensures r'.e.ctl == PassEnd(n)
    decreases |p.nodes| - n, |p.nodes[n].children|, 2
  {
    var r1 := ApplyStep(p, r, n);
    r' := QuietKids(p, r1, n, 0, |p.nodes[n].children|);
    ReachTrans(p, r, r1, r');
    KidsInside(p, n, 0, |p.nodes[n].children|, r1, r');
    KeptThen(p, n, r, r1, r');
  }

  lemma KeptThen(p: Pipeline, n: nat, a: Run, b: Run, c: Run)
    requires ValidRun(p, a) && ValidRun(p, b) && ValidRun(p, c) && n < |p.nodes|
    requires KeptAll(p, a, b) && Apart(p, n, b, c) && Kept(p, b, c, n)
    ensures Apart(p, n, a, c) && Kept(p, a, c, n)
  {
    forall y | 0 <= y < |p.nodes| && (y == n || !AncOrSelf(p, n, y)) ensures Kept(p, a, c, y) {
      assert Kept(p, a, b, y) && Kept(p, b, c, y);
    }
  }

  lemma ApartFirst(p: Pipeline, n: nat, k: nat, a: Run, b: Run, c: Run)
    requires ValidRun(p, a) && ValidRun(p, b) && ValidRun(p, c)
    requires n < |p.nodes| && k < |p.nodes[n].children| && Apart(p, Kid(p, n, k), a, b) && KeptAll(p, b, c)
    ensures ApartKids(p, n, k, k + 1, a, c)
  {
    forall y | 0 <= y < |p.nodes| && Clear(p, n, k, k + 1, y) ensures Kept(p, a, c, y) {
      assert !AncOrSelf(p, Kid(p, n, k), y);
      assert Kept(p, a, b, y) && Kept(p, b, c, y);
    }
  }

  lemma ApartNext(p: Pipeline, n: nat, k: nat, j: nat, a: Run, b: Run, c: Run)
    requires ValidRun(p, a) && ValidRun(p, b) && ValidRun(p, c)
    requires n < |p.nodes| && k < j <= |p.nodes[n].children|
    requires ApartKids(p, n, k, k + 1, a, b) && ApartKids(p, n, k + 1, j, b, c)
    ensures ApartKids(p, n, k, j, a, c)
  {
    forall y | 0 <= y < |p.nodes| && Clear(p, n, k, j, y) ensures Kept(p, a, c, y) {
      assert Clear(p, n, k, k + 1, y) && Clear(p, n, k + 1, j, y);
      assert Kept(p, a, b, y) && Kept(p, b, c, y);
    }
  }

  lemma QuietKid(p: Pipeline, r: Run, n: nat, k: nat) returns (r': Run)
    requires ValidRun(p, r) && n < |p.nodes| && k < |p.nodes[n].children| && r.e.ctl == Enter(Kid(p, n, k))
    ensures ValidRun(p, r') && Reaches(p, r, r') && ApartKids(p, n, k, k + 1, r, r')
    ensures r'.e.ctl == SlotCtl(p, n, k + 1)
    decreases |p.nodes| - n, |p.nodes[n].children| - k, 0
  {
    var r1 := QuietRun(p, r, Kid(p, n, k));
    r' := BackStep(p, r1, n, k);
    ReachTrans(p, r, r1, r');
    ApartFirst(p, n, k, r, r1, r');
  }

  lemma QuietKids(p: Pipeline, r: Run, n: nat, k: nat, j: nat) returns (r': Run)
    requires ValidRun(p, r) && n < |p.nodes| && k <= j <= |p.nodes[n].children| && r.e.ctl == SlotCtl(p, n, k)
    ensures ValidRun(p, r') && Reaches(p, r, r') && ApartKids(p, n, k, j, r, r')
    ensures r'.e.ctl == SlotCtl(p, n, j)
    decreases |p.nodes| - n, |p.nodes[n].children| - k, 1
  {
    if k == j {
      r' := r;
      ReachSelf(p, r);
    } else {
      var r1 := QuietKid(p, r, n, k);
      r' := QuietKids(p, r1, n, k + 1, j);
      ReachTrans(p, r, r1, r');
      ApartNext(p, n, k, j, r, r1, r');
    }
  }

  lemma QuietRun(p: Pipeline, r: Run, n: nat) returns (r': Run)
    requires ValidRun(p, r) && n > 0 && r.e.ctl == Enter(n)
    ensures ValidRun(p, r') && Reaches(p, r, r') && Apart(p, n, r, r')
    ensures r'.e.ctl == Back(n) && !r'.e.ret
    ensures r'.e.ended[n] == (r.e.ended[n] || p.acts[n].Once())
    decreases |p.nodes| - n, |p.nodes[n].children| + 2
  {
    var r1 := EnterStep(p, r, n);
    r' := r1;
    if !r.e.ended[n] {
      r' := QuietBody(p, r1, n);
      ReachTrans(p, r, r1, r');
    }
  }

  // ---------- Ending the first child ----------

  /** A pass over `n` is over and something below it has changed. */
  lemma LoudEnd(p: Pipeline, r: Run, n: nat) returns (r': Run)
    requires ValidRun(p, r) && 0 < n < |p.nodes| && r.e.ctl == PassEnd(n) && r.e.any[n] && r.e.grew[n]
    ensures ValidRun(p, r') && Reaches(p, r, r') && Apart(p, n, r, r')
    ensures r'.e.ctl == Back(n) && r'.e.ret && r'.e.ended[n] == (p.acts[n].Once() || p.acts[n].OneAct())
  {
    ReachSelf(p, r);
    if p.acts[n].Repeats() {
      var r1 := SecondPass(p, r, n);
      r' := CompleteStep(p, r, r1, n);
    } else {
      r' := CompleteStep(p, r, r, n);
    }
  }

  /** A node that repeats runs once more, quietly. */
  lemma SecondPass(p: Pipeline, r: Run, n: nat) returns (r': Run)
    requires ValidRun(p, r) && 0 < n < |p.nodes| && r.e.ctl == PassEnd(n) && r.e.grew[n] && p.acts[n].Repeats()
    ensures ValidRun(p, r') && Reaches(p, r, r') && Apart(p, n, r, r')
    ensures r'.e.ctl == PassEnd(n) && !r'.e.grew[n] && r'.e.any[n] == r.e.any[n]
  {
    var r0 := Advance(p, r, QUIET);
    ReachNext(p, r, QUIET);
    r' := QuietPass(p, r0, n);
    ReachTrans(p, r, r0, r');
    AgainApart(p, n, r, r0, r');
  }

  lemma AgainApart(p: Pipeline, n: nat, a: Run, b: Run, c: Run)
    requires ValidRun(p, a) && ValidRun(p, b) && ValidRun(p, c) && n < |p.nodes|
    requires b.g == a.g && b.e.ended == a.e.ended && b.e.any == a.e.any && b.e.grew == a.e.grew[n := false]
    requires Apart(p, n, b, c)
    ensures Apart(p, n, a, c)
  {
    forall y | 0 <= y < |p.nodes| && !AncOrSelf(p, n, y) ensures Kept(p, a, c, y) {
      assert AncOrSelf(p, n, n) && Kept(p, b, c, y);
    }
  }

  lemma CompleteApart(p: Pipeline, n: nat, a: Run, b: Run, c: Run)
    requires ValidRun(p, a) && ValidRun(p, b) && ValidRun(p, c) && n < |p.nodes|
    requires Apart(p, n, a, b) && c.g == b.g && c.e.grew == b.e.grew && c.e.any == b.e.any
    requires forall y | 0 <= y < |p.nodes| && y != n :: c.e.ended[y] == b.e.ended[y]
    ensures Apart(p, n, a, c)
  {
    forall y | 0 <= y < |p.nodes| && !AncOrSelf(p, n, y) ensures Kept(p, a, c, y) {
      assert AncOrSelf(p, n, n) && Kept(p, a, b, y);
    }
  }

  /** Nothing on the path from `n` down to `x` has ended. */
  ghost predicate OpenDown(p: Pipeline, r: Run, n: nat, x: nat)
    requires ValidRun(p, r) && x < |p.nodes|
  {
    forall y | 0 <= y < |p.nodes| && AncOrSelf(p, n, y) && AncOrSelf(p, y, x) :: !r.e.ended[y]
  }

  /** The leaf changes the function at its first application. */
  lemma LoudLeaf(p: Pipeline, r: Run, n: nat) returns (r': Run)
    requires ValidRun(p, r) && n < |p.nodes| && r.e.ctl == Apply(n) && p.nodes[n].children == [] && !p.acts[n].isGroup
    ensures ValidRun(p, r') && Reaches(p, r, r') && Apart(p, n, r, r')
    ensures r'.e.ctl == PassEnd(n) && r'.e.any[n] && r'.e.grew[n]
  {
    r' := Advance(p, r, LOUD);
    ReachNext(p, r, LOUD);
    EnterApart(p, n, r, r');
  }

  lemma ApartTrans(p: Pipeline, n: nat, a: Run, b: Run, c: Run)
    requires ValidRun(p, a) && ValidRun(p, b) && ValidRun(p, c)
    requires Apart(p, n, a, b) && Apart(p, n, b, c)
    ensures Apart(p, n, a, c)
  {
    forall y | 0 <= y < |p.nodes| && !AncOrSelf(p, n, y) ensures Kept(p, a, c, y) {
      assert Kept(p, a, b, y) && Kept(p, b, c, y);
    }
  }

  lemma KidApart(p: Pipeline, n: nat, j: nat, a: Run, b: Run)
    requires ValidRun(p, a) && ValidRun(p, b) && n < |p.nodes| && j < |p.nodes[n].children|
    requires Apart(p, Kid(p, n, j), a, b)
    ensures Apart(p, n, a, b)
  {
    forall y | 0 <= y < |p.nodes| && !AncOrSelf(p, n, y) ensures Kept(p, a, b, y) {
      if AncOrSelf(p, Kid(p, n, j), y) { KidBelow(p, n, j, y); }
    }
  }

  /** The quiet children before the one on the path to `x` leave that path open. */
  lemma StillOpen(p: Pipeline, n: nat, x: nat, a: Run, b: Run, q: nat, j: nat)
    requires ValidRun(p, a) && ValidRun(p, b) && x < |p.nodes| && ProperAnc(p, n, x)
    requires q == Toward(p, n, x) && j == p.nodes[q].indexInParent
    requires OpenDown(p, a, q, x) && ApartKids(p, n, 0, j, a, b)
    ensures OpenDown(p, b, q, x)
  {
    forall y | 0 <= y < |p.nodes| && AncOrSelf(p, q, y) && AncOrSelf(p, y, x) ensures !b.e.ended[y] {
      forall i | 0 <= i < j ensures !AncOrSelf(p, Kid(p, n, i), y) {
        if AncOrSelf(p, Kid(p, n, i), y) {
          AncTransitive(p, Kid(p, n, i), y, x);
          UniqueKidAbove(p, n, Kid(p, n, i), x);
        }
      }
      assert Clear(p, n, 0, j, y);
    }
  }

  /** From the start of the loud child to the end of the pass over its parent. */
  lemma LoudRest(p: Pipeline, r: Run, n: nat, j: nat) returns (r': Run)
    requires ValidRun(p, r) && n < |p.nodes| && j < |p.nodes[n].children|
    requires r.e.ctl == Back(Kid(p, n, j)) && r.e.ret
    ensures ValidRun(p, r') && Reaches(p, r, r') && Apart(p, n, r, r')
    ensures r'.e.ctl == PassEnd(n) && r'.e.any[n] && r'.e.grew[n]
  {
    var r1 := BackStep(p, r, n, j);
    var all := |p.nodes[n].children|;
    r' := QuietKids(p, r1, n, j + 1, all);
    ReachTrans(p, r, r1, r');
    KidsInside(p, n, j + 1, all, r1, r');
    EnterApart(p, n, r, r1);
    ApartTrans(p, n, r, r1, r');
  }

  lemma KeptOpen(p: Pipeline, a: Run, b: Run, n: nat, x: nat)
    requires ValidRun(p, a) && ValidRun(p, b) && x < |p.nodes| && KeptAll(p, a, b) && OpenDown(p, a, n, x)
    ensures OpenDown(p, b, n, x)
  {
    forall y | 0 <= y < |p.nodes| && AncOrSelf(p, n, y) && AncOrSelf(p, y, x) ensures !b.e.ended[y] {
      assert Kept(p, a, b, y);
    }
  }

  /** From the start of a pass to the child on the path to `x`. */
  lemma LoudStart(p: Pipeline, r: Run, n: nat, x: nat) returns (r': Run)
    requires ValidRun(p, r) && r.e.ctl == Apply(n) && !r.e.grew[n]
    requires x < |p.nodes| && ProperAnc(p, n, x) && OpenDown(p, r, Toward(p, n, x), x)
    ensures ValidRun(p, r') && Reaches(p, r, r') && Apart(p, n, r, r')
    ensures r'.e.ctl == Enter(Toward(p, n, x)) && OpenDown(p, r', Toward(p, n, x), x)
  {
    var q := Toward(p, n, x);
    var j := p.nodes[q].indexInParent;
    var r1 := ApplyStep(p, r, n);
    r' := QuietKids(p, r1, n, 0, j);
    ReachTrans(p, r, r1, r');
    KeptOpen(p, r, r1, q, x);
    StillOpen(p, n, x, r1, r', q, j);
    KidsInside(p, n, 0, j, r1, r');
    KeptThen(p, n, r, r1, r');
  }

  lemma LoudPass(p: Pipeline, r: Run, n: nat, x: nat) returns (r': Run)
    requires ValidRun(p, r) && n > 0 && r.e.ctl == Apply(n) && !r.e.grew[n]
    requires LeafBelow(p, n, x) && (n != x ==> OpenDown(p, r, Toward(p, n, x), x))
    ensures ValidRun(p, r') && Reaches(p, r, r') && Apart(p, n, r, r')
    ensures r'.e.ctl == PassEnd(n) && r'.e.any[n] && r'.e.grew[n]
    decreases |p.nodes| - n, 0
  {
    if n == x {
      r' := LoudLeaf(p, r, n);
    } else {
      var q := Toward(p, n, x);
      var r1 := LoudStart(p, r, n, x);
      var r2 := LoudRun(p, r1, q, x);
      KidApart(p, n, p.nodes[q].indexInParent, r1, r2);
      r' := LoudRest(p, r2, n, p.nodes[q].indexInParent);
      ReachTrans(p, r, r1, r2);
      ReachTrans(p, r, r2, r');
      ApartTrans(p, n, r, r1, r2);
      ApartTrans(p, n, r, r2, r');
    }
  }

  lemma LoudRun(p: Pipeline, r: Run, n: nat, x: nat) returns (r': Run)
    requires ValidRun(p, r) && n > 0 && r.e.ctl == Enter(n) && LeafBelow(p, n, x) && OpenDown(p, r, n, x)
    ensures ValidRun(p, r') && Reaches(p, r, r') && Apart(p, n, r, r')
    ensures r'.e.ctl == Back(n) && r'.e.ret && r'.e.ended[n] == (p.acts[n].Once() || p.acts[n].OneAct())
    decreases |p.nodes| - n, 1
  {
    assert AncOrSelf(p, n, n);
    var r1 := EnterStep(p, r, n);
    if n != x { OpenBelow(p, r, r1, n, x); }
    var r2 := LoudPass(p, r1, n, x);
    ReachTrans(p, r, r1, r2);
    ApartTrans(p, n, r, r1, r2);
    r' := LoudEnd(p, r2, n);
    ReachTrans(p, r, r2, r');
    ApartTrans(p, n, r, r2, r');
  }

  lemma OpenBelow(p: Pipeline, a: Run, b: Run, n: nat, x: nat)
    requires ValidRun(p, a) && ValidRun(p, b) && x < |p.nodes| && ProperAnc(p, n, x)
    requires OpenDown(p, a, n, x) && b.e.ended == a.e.ended
    ensures OpenDown(p, b, Toward(p, n, x), x)
  {
    var q := Toward(p, n, x);
    forall y | 0 <= y < |p.nodes| && AncOrSelf(p, q, y) && AncOrSelf(p, y, x) ensures !b.e.ended[y] {
      KidBelow(p, n, p.nodes[q].indexInParent, y);
    }
  }

  /** A first child that can end does end in some run, with nothing outside it ended. */
  lemma EndFirst(p: Pipeline) returns (r': Run)
    requires ValidPipeline(p) && CanEnd(p)
    ensures ValidRun(p, r') && Reaches(p, First(p), r')
    ensures r'.e.ctl == Back(FirstChild(p)) && r'.e.ended[FirstChild(p)]
    ensures forall y | 0 <= y < |p.nodes| && !AncOrSelf(p, FirstChild(p), y) :: !r'.e.ended[y]
  {
    var r0, first := First(p), FirstChild(p);
    var r1 := ApplyStep(p, r0, 0);
    forall y | 0 <= y < |p.nodes| ensures !r1.e.ended[y] { assert Kept(p, r0, r1, y); }
    if p.acts[first].Once() {
      r' := QuietRun(p, r1, first);
    } else {
      var x: nat :| LeafBelow(p, first, x);
      r' := LoudRun(p, r1, first, x);
    }
    ReachTrans(p, r0, r1, r');
    forall y | 0 <= y < |p.nodes| && !AncOrSelf(p, first, y) ensures !r'.e.ended[y] {
      assert Kept(p, r1, r', y);
    }
  }

  lemma ReachedIsSeen(p: Pipeline, r: Run)
    requires ValidPipeline(p) && Reaches(p, First(p), r)
    ensures ValidRun(p, r) && Seen(p, r)
  {
    var cs: seq<Choice> :| Restartless(cs) && Drive(p, First(p), cs) == r;
    assert cs[..|cs|] == cs;
    forall k | 0 <= k < |cs| ensures !Unseen(p, Drive(p, First(p), cs[..k]), cs[k]) { assert cs[k] in cs; }
    DriveSeen(p, cs, |cs|);
  }

  /** With a second root child the run then pauses there, and the pass ends with the first
      child ended at that pause. */
  lemma PauseAtSecond(p: Pipeline, r: Run) returns (r': Run)
    requires ValidRun(p, r) && Reaches(p, First(p), r) && |p.nodes[0].children| >= 2
    requires r.e.ctl == Back(FirstChild(p)) && r.e.ended[FirstChild(p)]
    requires forall y | 0 <= y < |p.nodes| && !AncOrSelf(p, FirstChild(p), y) :: !r.e.ended[y]
    ensures ValidRun(p, r') && Reaches(p, First(p), r')
    ensures r'.e.ctl == Apply(Kid(p, 0, 1)) && !r'.e.grew[Kid(p, 0, 1)] && !r'.e.any[Kid(p, 0, 1)]
    ensures r'.e.ended[FirstChild(p)] && r'.g.was[FirstChild(p)]
  {
    var r1 := BackStep(p, r, 0, 0);
    ReachTrans(p, First(p), r, r1);
    SecondIsApart(p);
    r' := PauseHere(p, r1);
  }

  /** A start reached without a restart is paused at. */
  lemma PauseHere(p: Pipeline, r: Run) returns (r': Run)
    requires ValidRun(p, r) && Reaches(p, First(p), r) && Starting(r.e)
    ensures r' == Pause(p, r.e, r.begun, r.stops) && Reaches(p, First(p), r')
  {
    ReachedIsSeen(p, r);
    StartIsArmed(p, r.g, r.e);
    r' := Advance(p, r, QUIET);
    ReachStep(p, First(p), r, QUIET);
  }

  lemma SecondIsApart(p: Pipeline)
    requires ValidPipeline(p) && |p.nodes[0].children| >= 2
    ensures !AncOrSelf(p, FirstChild(p), Kid(p, 0, 1)) && !AncOrSelf(p, Kid(p, 0, 1), FirstChild(p))
  {
    var a, b := Kid(p, 0, 0), Kid(p, 0, 1);
    assert LinkedUp(p.nodes, a) && LinkedUp(p.nodes, b);
    assert ProperAnc(p, 0, a) && ProperAnc(p, 0, b);
    assert Toward(p, 0, a) == a && Toward(p, 0, b) == b;
    if AncOrSelf(p, a, b) { UniqueKidAbove(p, 0, a, b); }
    if AncOrSelf(p, b, a) { UniqueKidAbove(p, 0, b, a); }
  }

  /** From there a restart slips. */
  lemma SlipExists(p: Pipeline) returns (cs: seq<Choice>)
    requires ValidPipeline(p) && |p.nodes[0].children| >= 2 && CanEnd(p)
    ensures exists k: nat :: Slips(p, cs, k)
  {
    var r1 := EndFirst(p);
    var r2 := PauseAtSecond(p, r1);
    var r3 := QuietBody(p, r2, Kid(p, 0, 1));
    ReachTrans(p, First(p), r2, r3);
    SecondIsApart(p);
    assert Kept(p, r2, r3, FirstChild(p));
    var r4 := BackStep(p, r3, 0, 1);
    ReachTrans(p, First(p), r3, r4);
    var all := |p.nodes[0].children|;
    var r5 := QuietKids(p, r4, 0, 2, all);
    ReachTrans(p, First(p), r4, r5);
    FirstIsClear(p, 2, all);
    assert Kept(p, r3, r4, FirstChild(p)) && Kept(p, r4, r5, FirstChild(p));
    var before: seq<Choice> :| Restartless(before) && Drive(p, First(p), before) == r5;
    cs := before + [Choice(false, Restart), QUIET];
    assert cs[..|before|] == before;
    assert Slips(p, cs, |before|);
  }

  lemma FirstIsClear(p: Pipeline, k: nat, j: nat)
    requires ValidPipeline(p) && 1 <= k <= j <= |p.nodes[0].children|
    ensures Clear(p, 0, k, j, FirstChild(p))
  {
    var first := FirstChild(p);
    assert LinkedUp(p.nodes, first) && ProperAnc(p, 0, first) && Toward(p, 0, first) == first;
    forall i | k <= i < j ensures !AncOrSelf(p, Kid(p, 0, i), first) {
      if AncOrSelf(p, Kid(p, 0, i), first) { UniqueKidAbove(p, 0, Kid(p, 0, i), first); }
    }
  }

  /** A driver that installs no restart flow never misses a start, whatever its pipeline. */
  lemma NeverMissesWithoutFlow(p: Pipeline, cs: seq<Choice>)
    requires ValidPipeline(p) && Restartless(cs)
    ensures Drive(p, First(p), cs).begun == Drive(p, First(p), cs).e.log
  {
    forall k: nat ensures !Slips(p, cs, k) {
      if k + 1 < |cs| { assert cs[k] in cs; }
    }
    BegunExactly(p, cs);
  }

  /** No choices of the pipeline can make the stepper miss a start if and only if the root has
      a single child or its first child can never end. */
  lemma NeverMissesExactly(p: Pipeline)
    requires ValidPipeline(p)
    ensures (forall cs: seq<Choice> :: Drive(p, First(p), cs).begun == Drive(p, First(p), cs).e.log)
      <==> |p.nodes[0].children| == 1 || !CanEnd(p)
  {
    if |p.nodes[0].children| == 1 || !CanEnd(p) {
      forall cs: seq<Choice> ensures Drive(p, First(p), cs).begun == Drive(p, First(p), cs).e.log {
        forall k: nat ensures !Slips(p, cs, k) {
          if k + 1 < |cs| {
            if CanEnd(p) { OnlyChildSeen(p, cs[..k]); } else { DriveIdle(p, cs[..k]); }
          }
        }
        BegunExactly(p, cs);
      }
    } else {
      var cs := SlipExists(p);
      BegunExactly(p, cs);
    }
  }
}
