/** The all-mode worker pool (examples/gen_decompile.rs:1900-2032). */
module ChildPool {
  import opened Common
  import opened Sorting

  // Workers share an atomic cursor over a schedule of slots, a block store and a fail-closed
  // spawn-failure flag.  Each move below is one atomic action of one worker; a sequence of
  // moves is one interleaving, so a statement about every sequence covers every schedule the
  // operating system can choose.

  datatype Block = Block(ok: bool, text: string)

  /** `work[slot]` is the function index of a slot; `child(index)` is the block that the
      supervised child of that function produces. */
  datatype Plan = Plan(work: seq<nat>, schedule: seq<nat>, child: nat -> Block)

  ghost predicate ValidPlan(p: Plan) {
    Permutes(p.schedule, |p.work|)
  }

  datatype Pc =
    | Fetching
    | Fetched(position: nat)
    | Supervising(position: nat)
    | Storing(position: nat, block: Block)
    | Returned
    | Panicked

  datatype Pool = Pool(
    cursor: nat, pcs: seq<Pc>, blocks: seq<Option<Block>>, failure: Option<string>, spawned: seq<nat>)

  /** How the supervised child turns out: captured (including the unkillable-stall block),
      not spawned at all, or the worker itself panics. */
  datatype ChildFate = Captured | SpawnError(message: string) | WorkerPanic
  datatype Move = Move(worker: nat, fate: ChildFate)

  /** `schedule`: index order for one job, largest function first otherwise. */
  method MakeSchedule(sizes: seq<nat>, jobs: nat) returns (schedule: seq<nat>)
    ensures Permutes(schedule, |sizes|)
    ensures jobs <= 1 ==> forall i | 0 <= i < |schedule| :: schedule[i] == i
    ensures jobs > 1 ==> forall i, j | 0 <= i < j < |schedule| ::
      schedule[i] < |sizes| && schedule[j] < |sizes| && sizes[schedule[i]] >= sizes[schedule[j]]
  {
    schedule := Range(|sizes|);
    if jobs > 1 {
      var le := (a: nat, b: nat) => SizeAt(sizes, a) >= SizeAt(sizes, b);
      schedule := SortBy(schedule, le);
      SortBySorted(Range(|sizes|), le);
      PermutationFacts(schedule, |sizes|);
      assert forall i | 0 <= i < |schedule| :: schedule[i] in schedule;
    }
  }

  function SizeAt(sizes: seq<nat>, slot: nat): nat {
    if slot < |sizes| then sizes[slot] else 0
  }

  function Start(p: Plan, jobs: nat): Pool {
    var workers := if jobs <= |p.work| then jobs else |p.work|;
    Pool(0, seq(workers, _ => Fetching), seq(|p.work|, _ => None), None, [])
  }

  predicate Live(s: Pool, w: nat) {
    w < |s.pcs| && !s.pcs[w].Returned? && !s.pcs[w].Panicked?
  }

  function SetPc(s: Pool, w: nat, pc: Pc): Pool
    requires w < |s.pcs|
  {
    s.(pcs := s.pcs[w := pc])
  }

  /** One atomic action of worker `m.worker`. */
  function Act(p: Plan, s: Pool, m: Move): Pool
    requires Live(s, m.worker)
    requires |p.schedule| == |p.work| == |s.blocks| && forall i | 0 <= i < |p.schedule| :: p.schedule[i] < |p.work|
    requires match s.pcs[m.worker] case Supervising(at) => at < |p.work| case Storing(at, _) => at < |p.work| case _ => true
  {
    var w := m.worker;
    match s.pcs[w]
    case Fetching =>
      SetPc(s, w, if s.cursor < |p.schedule| then Fetched(s.cursor) else Returned).(cursor := s.cursor + 1)
    case Fetched(at) =>
      if s.failure.Some? then SetPc(s, w, Returned)
      else SetPc(s, w, Supervising(at)).(spawned := s.spawned + [at])
    case Supervising(at) =>
      (match m.fate
       case Captured => SetPc(s, w, Storing(at, p.child(p.work[p.schedule[at]])))
       case SpawnError(message) => SetPc(s, w, Returned).(failure := Some(message))
       case WorkerPanic => SetPc(s, w, Panicked))
    case Storing(at, block) =>
      SetPc(s, w, Fetching).(blocks := s.blocks[p.schedule[at] := Some(block)])
  }

  // ---------- The pool invariant ----------

  function Holds(pc: Pc): Option<nat> {
    match pc
    case Fetched(at) => Some(at)
    case Supervising(at) => Some(at)
    case Storing(at, _) => Some(at)
    case _ => None
  }

  ghost predicate Broken(s: Pool) {
    s.failure.Some? || exists w | 0 <= w < |s.pcs| :: s.pcs[w].Panicked?
  }

  ghost predicate HeldBySomeone(s: Pool, at: nat) {
    exists w | 0 <= w < |s.pcs| :: Holds(s.pcs[w]) == Some(at)
  }

  /** The block of the function scheduled at position `at`. */
  function OwnBlock(p: Plan, at: nat): Block
    requires |p.schedule| == |p.work| && at < |p.work| && p.schedule[at] < |p.work|
  {
    p.child(p.work[p.schedule[at]])
  }

  ghost predicate Shape(p: Plan, s: Pool) {
    ValidPlan(p) && |p.schedule| == |p.work| == |s.blocks| && forall i | 0 <= i < |p.schedule| :: p.schedule[i] < |p.work|
  }

  ghost predicate Inv(p: Plan, s: Pool) {
    && Shape(p, s)
    && Hands(p, s)
    && SpawnedOnce(p, s)
    && (forall at | 0 <= at < |p.work| :: Settled(p, s, at))
    // A worker that stopped without a failure saw the end of the schedule.
    && (forall w | 0 <= w < |s.pcs| && s.pcs[w].Returned? :: Broken(s) || s.cursor >= |p.work|)
  }

  /** Positions in hand are below the cursor and each in one hand only. */
  ghost predicate Hands(p: Plan, s: Pool)
    requires Shape(p, s)
  {
    && (forall w | 0 <= w < |s.pcs| && Holds(s.pcs[w]).Some? :: Holds(s.pcs[w]).value < s.cursor && Holds(s.pcs[w]).value < |p.work|)
    && (forall v, w | 0 <= v < |s.pcs| && 0 <= w < |s.pcs| && v != w && Holds(s.pcs[v]).Some? :: Holds(s.pcs[v]) != Holds(s.pcs[w]))
    && (forall w | 0 <= w < |s.pcs| && s.pcs[w].Storing? :: s.pcs[w].block == OwnBlock(p, s.pcs[w].position))
  }

  /** No position is supervised twice. */
  ghost predicate SpawnedOnce(p: Plan, s: Pool)
    requires Shape(p, s)
  {
    && Distinct(s.spawned)
    && forall at | at in s.spawned :: at < s.cursor && at < |p.work| && forall w | 0 <= w < |s.pcs| :: s.pcs[w] != Fetched(at)
  }

  /** A position passed by the cursor is stored, in hand, or lost to a failure. */
  ghost predicate Settled(p: Plan, s: Pool, at: nat)
    requires Shape(p, s) && at < |p.work|
  {
    var stored := s.blocks[p.schedule[at]];
    && (stored.Some? ==> at < s.cursor && stored.value == OwnBlock(p, at) && !HeldBySomeone(s, at))
    && (at < s.cursor && stored.None? ==> HeldBySomeone(s, at) || Broken(s))
  }

  lemma StartInv(p: Plan, jobs: nat)
    requires ValidPlan(p)
    ensures Inv(p, Start(p, jobs))
  {
    PermutationFacts(p.schedule, |p.work|);
  }

  lemma ActHands(p: Plan, s: Pool, m: Move)
    requires Inv(p, s) && Live(s, m.worker)
    ensures Shape(p, Act(p, s, m)) && Hands(p, Act(p, s, m))
  {
    var s', w := Act(p, s, m), m.worker;
    assert forall v | 0 <= v < |s.pcs| && v != w :: s'.pcs[v] == s.pcs[v];
    assert Holds(s'.pcs[w]).Some? ==> Holds(s'.pcs[w]) == Holds(s.pcs[w]) || Holds(s'.pcs[w]) == Some(s.cursor);
  }

  lemma ActSpawned(p: Plan, s: Pool, m: Move)
    requires Inv(p, s) && Live(s, m.worker)
    ensures Shape(p, Act(p, s, m)) && SpawnedOnce(p, Act(p, s, m))
  {
    var s', w := Act(p, s, m), m.worker;
    assert forall v | 0 <= v < |s.pcs| && v != w :: s'.pcs[v] == s.pcs[v];
    if s'.spawned != s.spawned {
      var at := s.pcs[w].position;
      assert s.pcs[w] == Fetched(at) && at !in s.spawned;
      forall v | 0 <= v < |s'.pcs| ensures s'.pcs[v] != Fetched(at) {
        if v != w { assert Holds(s.pcs[v]) != Holds(s.pcs[w]); }
      }
    }
  }

  lemma ActBroken(p: Plan, s: Pool, m: Move)
    requires Inv(p, s) && Live(s, m.worker) && Broken(s)
    ensures Broken(Act(p, s, m))
  {
    if s.failure.None? {
      var v :| 0 <= v < |s.pcs| && s.pcs[v].Panicked?;
      assert Act(p, s, m).pcs[v].Panicked?;
    }
  }

  lemma ActInv(p: Plan, s: Pool, m: Move)
    requires Inv(p, s) && Live(s, m.worker)
    ensures Inv(p, Act(p, s, m))
  {
    var s', w := Act(p, s, m), m.worker;
    ActHands(p, s, m);
    ActSpawned(p, s, m);
    if Broken(s) { ActBroken(p, s, m); }
    forall at | 0 <= at < |p.work| ensures Settled(p, s', at) {
      ActSettled(p, s, m, at);
    }
    forall v | 0 <= v < |s'.pcs| && s'.pcs[v].Returned? ensures Broken(s') || s'.cursor >= |p.work| {
      if v != w { assert s.pcs[v].Returned?; }
    }
  }

  lemma ActSettled(p: Plan, s: Pool, m: Move, at: nat)
    requires Inv(p, s) && Live(s, m.worker) && at < |p.work|
    requires Broken(s) ==> Broken(Act(p, s, m))
    ensures Settled(p, Act(p, s, m), at)
  {
    HeldAfter(p, s, m, at);
    StoredAfter(p, s, m, at);
    assert Settled(p, s, at);
  }

  /** Who holds position `at` after an action. */
  lemma HeldAfter(p: Plan, s: Pool, m: Move, at: nat)
    requires Inv(p, s) && Live(s, m.worker) && at < |p.work|
    requires Broken(s) ==> Broken(Act(p, s, m))
    ensures var s' := Act(p, s, m);
      && (HeldBySomeone(s, at) ==> HeldBySomeone(s', at) || Broken(s') || s.pcs[m.worker] == Storing(at, OwnBlock(p, at)))
      && (HeldBySomeone(s', at) && !HeldBySomeone(s, at) ==> at == s.cursor && s.pcs[m.worker].Fetching?)
      && (s.pcs[m.worker].Fetching? && at == s.cursor ==> HeldBySomeone(s', at))
  {
    var s', w := Act(p, s, m), m.worker;
    assert forall v | 0 <= v < |s.pcs| && v != w :: s'.pcs[v] == s.pcs[v];
    if HeldBySomeone(s, at) {
      var v :| 0 <= v < |s.pcs| && Holds(s.pcs[v]) == Some(at);
      assert Holds(s'.pcs[v]) == Some(at) ==> HeldBySomeone(s', at);
      if v == w {
        assert s'.pcs[w].Returned? ==> Broken(s');
        assert s'.pcs[w].Panicked? ==> Broken(s');
      }
    }
    if s.pcs[w].Fetching? && at == s.cursor {
      assert Holds(s'.pcs[w]) == Some(at);
    }
  }

  /** What position `at` has stored after an action. */
  lemma StoredAfter(p: Plan, s: Pool, m: Move, at: nat)
    requires Inv(p, s) && Live(s, m.worker) && at < |p.work|
    ensures var s' := Act(p, s, m);
      && s'.blocks[p.schedule[at]] ==
           (if s.pcs[m.worker].Storing? && s.pcs[m.worker].position == at then Some(OwnBlock(p, at)) else s.blocks[p.schedule[at]])
      && (s.pcs[m.worker].Storing? && s.pcs[m.worker].position == at ==> at < s.cursor && !HeldBySomeone(s', at))
  {
    PermutationFacts(p.schedule, |p.work|);
  }

  // ---------- Runs ----------

  /** The pool after a sequence of moves; a move of a finished worker does nothing. */
  ghost function Run(p: Plan, jobs: nat, moves: seq<Move>): (s: Pool)
    requires ValidPlan(p)
    ensures Inv(p, s)
    decreases |moves|
  {
    if moves == [] then StartInv(p, jobs); Start(p, jobs)
    else
      var s, m := Run(p, jobs, moves[..|moves| - 1]), moves[|moves| - 1];
      if Live(s, m.worker) then ActInv(p, s, m); Act(p, s, m) else s
  }

  ghost predicate Drained(s: Pool) {
    forall w | 0 <= w < |s.pcs| :: !Live(s, w)
  }

  lemma SlotsDiffer(p: Plan, i: nat, j: nat)
    requires ValidPlan(p) && i != j && |p.schedule| == |p.work| && i < |p.work| && j < |p.work|
    ensures p.schedule[i] != p.schedule[j]
  {
    PermutationFacts(p.schedule, |p.work|);
  }

  /** No two workers are ever at work on one slot. */
  lemma NoSlotShared(p: Plan, jobs: nat, moves: seq<Move>, v: nat, w: nat)
    requires ValidPlan(p)
    requires v < w < |Run(p, jobs, moves).pcs|
    requires Holds(Run(p, jobs, moves).pcs[v]).Some? && Holds(Run(p, jobs, moves).pcs[w]).Some?
    ensures var s := Run(p, jobs, moves);
            p.schedule[Holds(s.pcs[v]).value] != p.schedule[Holds(s.pcs[w]).value]
  {
    var s := Run(p, jobs, moves);
    SlotsDiffer(p, Holds(s.pcs[v]).value, Holds(s.pcs[w]).value);
  }

  /** Over a whole run, no slot's child is spawned twice. */
  lemma NoSlotTwice(p: Plan, jobs: nat, moves: seq<Move>, i: nat, j: nat)
    requires ValidPlan(p) && i < j < |Run(p, jobs, moves).spawned|
    ensures var at := Run(p, jobs, moves).spawned;
            at[i] < |p.schedule| && at[j] < |p.schedule| && p.schedule[at[i]] != p.schedule[at[j]]
  {
    var s := Run(p, jobs, moves);
    assert s.spawned[i] in s.spawned && s.spawned[j] in s.spawned;
    SlotsDiffer(p, s.spawned[i], s.spawned[j]);
  }

  /** A drained pool without a failure holds, in every slot, that slot's own block. */
  lemma DrainedIsComplete(p: Plan, jobs: nat, moves: seq<Move>)
    requires ValidPlan(p) && jobs >= 1
    requires Drained(Run(p, jobs, moves)) && !Broken(Run(p, jobs, moves))
    ensures forall slot | 0 <= slot < |p.work| :: Run(p, jobs, moves).blocks[slot] == Some(p.child(p.work[slot]))
  {
    var s := Run(p, jobs, moves);
    PermutationFacts(p.schedule, |p.work|);
    WorkersKept(p, jobs, moves);
    forall slot | 0 <= slot < |p.work| ensures s.blocks[slot] == Some(p.child(p.work[slot])) {
      assert slot in p.schedule;
      var at :| 0 <= at < |p.schedule| && p.schedule[at] == slot;
      assert !Live(s, 0) && s.pcs[0].Returned?;
      forall w | 0 <= w < |s.pcs| ensures Holds(s.pcs[w]).None? { assert !Live(s, w); }
      assert Settled(p, s, at);
    }
  }

  /** One worker for each job, but no more than there are slots. */
  lemma {:induction false} WorkersKept(p: Plan, jobs: nat, moves: seq<Move>)
    requires ValidPlan(p)
    ensures |Run(p, jobs, moves).pcs| <= jobs && |Run(p, jobs, moves).pcs| <= |p.work|
    ensures |Run(p, jobs, moves).pcs| == jobs || |Run(p, jobs, moves).pcs| == |p.work|
    decreases |moves|
  {
    if moves != [] { WorkersKept(p, jobs, moves[..|moves| - 1]); }
  }

  // ---------- What is spawned ----------

  /** Whatever is supervised, about to be stored or stored was spawned. */
  ghost predicate OnlySpawned(p: Plan, s: Pool)
    requires Shape(p, s)
  {
    && (forall w | 0 <= w < |s.pcs| && (s.pcs[w].Supervising? || s.pcs[w].Storing?) :: s.pcs[w].position in s.spawned)
    && (forall at | 0 <= at < |p.work| && s.blocks[p.schedule[at]].Some? :: at in s.spawned)
  }

  lemma ActSpawns(p: Plan, s: Pool, m: Move)
    requires Inv(p, s) && Live(s, m.worker) && OnlySpawned(p, s)
    ensures Shape(p, Act(p, s, m)) && OnlySpawned(p, Act(p, s, m))
  {
    PermutationFacts(p.schedule, |p.work|);
    ActHands(p, s, m);
    var s', w := Act(p, s, m), m.worker;
    assert forall v | 0 <= v < |s.pcs| && v != w :: s'.pcs[v] == s.pcs[v];
  }

  lemma {:induction false} RunSpawns(p: Plan, jobs: nat, moves: seq<Move>)
    requires ValidPlan(p)
    ensures OnlySpawned(p, Run(p, jobs, moves))
    decreases |moves|
  {
    if moves == [] {
      StartInv(p, jobs);
    } else {
      var s, m := Run(p, jobs, moves[..|moves| - 1]), moves[|moves| - 1];
      RunSpawns(p, jobs, moves[..|moves| - 1]);
      if Live(s, m.worker) { ActSpawns(p, s, m); }
    }
  }

  /** A drained pool without a failure has spawned every slot's child exactly once. */
  lemma EverySlotSpawned(p: Plan, jobs: nat, moves: seq<Move>)
    requires ValidPlan(p) && jobs >= 1
    requires Drained(Run(p, jobs, moves)) && !Broken(Run(p, jobs, moves))
    ensures Distinct(Run(p, jobs, moves).spawned)
    ensures forall at: nat :: at in Run(p, jobs, moves).spawned <==> at < |p.work|
  {
    var s := Run(p, jobs, moves);
    RunSpawns(p, jobs, moves);
    DrainedIsComplete(p, jobs, moves);
    forall at: nat | at < |p.work| ensures at in s.spawned {
      assert Shape(p, s) && p.schedule[at] < |p.work|;
      assert s.blocks[p.schedule[at]].Some?;
    }
  }

  /** A recorded failure is the message of some spawn error, and only spawn errors record one. */
  lemma {:induction false} FailureIsReported(p: Plan, jobs: nat, moves: seq<Move>)
    requires ValidPlan(p) && Run(p, jobs, moves).failure.Some?
    ensures exists k :: 0 <= k < |moves| && moves[k].fate == SpawnError(Run(p, jobs, moves).failure.value)
    decreases |moves|
  {
    var n := |moves| - 1;
    var before := moves[..n];
    if Run(p, jobs, before).failure == Run(p, jobs, moves).failure {
      FailureIsReported(p, jobs, before);
      var k :| 0 <= k < n && before[k].fate == SpawnError(Run(p, jobs, before).failure.value);
      assert moves[k] == before[k];
    }
  }

  lemma RunLast(p: Plan, jobs: nat, moves: seq<Move>, m: Move)
    requires ValidPlan(p)
    ensures var s := Run(p, jobs, moves);
      Run(p, jobs, moves + [m]) == if Live(s, m.worker) then Act(p, s, m) else s
  {
    assert (moves + [m])[..|moves + [m]| - 1] == moves;
  }

  ghost predicate ActKeeps(p: Plan, keeps: Pool -> bool) {
    forall s, m: Move {:trigger Act(p, s, m)} | Inv(p, s) && keeps(s) && Live(s, m.worker) :: keeps(Act(p, s, m))
  }

  lemma MoveKeeps(p: Plan, jobs: nat, moves: seq<Move>, m: Move, keeps: Pool -> bool)
    requires ValidPlan(p) && keeps(Run(p, jobs, moves)) && ActKeeps(p, keeps)
    ensures keeps(Run(p, jobs, moves + [m]))
  {
    RunLast(p, jobs, moves, m);
    var s := Run(p, jobs, moves);
    if Live(s, m.worker) { assert keeps(Act(p, s, m)); }
  }

  lemma OneByOne(moves: seq<Move>, more: seq<Move>)
    ensures moves + more == if more == [] then moves else moves + [more[0]] + more[1..]
  {
  }

  /** What every action of a live worker keeps, a whole continuation keeps. */
  lemma {:induction false} RunKeeps(p: Plan, jobs: nat, moves: seq<Move>, more: seq<Move>, keeps: Pool -> bool)
    requires ValidPlan(p) && keeps(Run(p, jobs, moves)) && ActKeeps(p, keeps)
    ensures keeps(Run(p, jobs, moves + more))
    decreases |more|
  {
    OneByOne(moves, more);
    if more != [] {
      MoveKeeps(p, jobs, moves, more[0], keeps);
      RunKeeps(p, jobs, moves + [more[0]], more[1..], keeps);
    }
  }

  ghost function Stopped(spawned: seq<nat>): Pool -> bool {
    (s: Pool) => s.failure.Some? && s.spawned == spawned
  }

  /** Once a spawn failure is recorded nothing further is spawned, however the run goes on. */
  lemma FailureStops(p: Plan, jobs: nat, moves: seq<Move>, more: seq<Move>)
    requires ValidPlan(p) && Run(p, jobs, moves).failure.Some?
    ensures Run(p, jobs, moves + more).failure.Some?
    ensures Run(p, jobs, moves + more).spawned == Run(p, jobs, moves).spawned
  {
    RunKeeps(p, jobs, moves, more, Stopped(Run(p, jobs, moves).spawned));
  }

  /** Worker `w` is at its fetched position, or has returned. */
  ghost function GivenUp(w: nat, at: nat): Pool -> bool {
    (s: Pool) => s.failure.Some? && w < |s.pcs| && (s.pcs[w] == Fetched(at) || s.pcs[w].Returned?)
  }

  /** A worker that has only fetched a position by then stays there until its next move, and
      that move returns. */
  lemma FetchedIsGivenUp(p: Plan, jobs: nat, moves: seq<Move>, more: seq<Move>, w: nat, at: nat, m: Move)
    requires ValidPlan(p) && Run(p, jobs, moves).failure.Some? && m.worker == w
    requires w < |Run(p, jobs, moves).pcs| && Run(p, jobs, moves).pcs[w] == Fetched(at)
    ensures GivenUp(w, at)(Run(p, jobs, moves + more))
    ensures w < |Run(p, jobs, moves + more + [m]).pcs| && Run(p, jobs, moves + more + [m]).pcs[w].Returned?
  {
    RunKeeps(p, jobs, moves, more, GivenUp(w, at));
    RunLast(p, jobs, moves + more, m);
  }

  /** And the position is never stored. */
  lemma GivenUpIsNotStored(p: Plan, jobs: nat, moves: seq<Move>, more: seq<Move>, w: nat, at: nat)
    requires ValidPlan(p) && Run(p, jobs, moves).failure.Some?
    requires w < |Run(p, jobs, moves).pcs| && Run(p, jobs, moves).pcs[w] == Fetched(at)
    ensures at < |p.schedule| && p.schedule[at] < |Run(p, jobs, moves + more).blocks|
    ensures Run(p, jobs, moves + more).blocks[p.schedule[at]].None?
  {
    var s := Run(p, jobs, moves);
    assert Holds(s.pcs[w]) == Some(at) && at !in s.spawned;
    FailureStops(p, jobs, moves, more);
    RunSpawns(p, jobs, moves + more);
    assert Shape(p, Run(p, jobs, moves + more));
  }

  // ---------- What the coordinator prints ----------

  datatype Exit = Emitted(stdout: string, okCount: nat) | FailedClosed | NoBlock(partial: string, slot: int)

  /** The blocks of slots below `n`, concatenated in slot order. */
  ghost function InOrder(p: Plan, n: nat): string
    requires n <= |p.work|
  {
    if n == 0 then "" else InOrder(p, n - 1) + p.child(p.work[n - 1]).text
  }

  ghost function OkIn(p: Plan, n: nat): nat
    requires n <= |p.work|
  {
    if n == 0 then 0 else OkIn(p, n - 1) + (if p.child(p.work[n - 1]).ok then 1 else 0)
  }

  /** Everything after the pool scope: joins, the failure check, the ordered emission. */
  method Emit(p: Plan, jobs: nat, ghost moves: seq<Move>, s: Pool) returns (exit: Exit)
    requires ValidPlan(p) && jobs >= 1 && s == Run(p, jobs, moves) && Drained(s)
    ensures Broken(s) ==> exit == FailedClosed
    ensures !Broken(s) ==> exit == Emitted(InOrder(p, |p.work|), OkIn(p, |p.work|))
  {
    for w := 0 to |s.pcs|
      invariant forall v | 0 <= v < w :: !s.pcs[v].Panicked?
    {
      if s.pcs[w].Panicked? { return FailedClosed; }
    }
    if s.failure.Some? { return FailedClosed; }
    DrainedIsComplete(p, jobs, moves);
    var stdout, okCount: nat := "", 0;
    for slot := 0 to |p.work|
      invariant stdout == InOrder(p, slot) && okCount == OkIn(p, slot)
    {
      if s.blocks[slot].None? { return NoBlock(stdout, slot); }
      stdout := stdout + s.blocks[slot].value.text;
      if s.blocks[slot].value.ok { okCount := okCount + 1; }
    }
    exit := Emitted(stdout, okCount);
  }

  /** Two failure-free drained runs of the same work hold the same blocks, whatever their job
      counts, schedules and interleavings. */
  lemma ScheduleIndependent(p: Plan, q: Plan, jobs: nat, jobs': nat, moves: seq<Move>, moves': seq<Move>)
    requires ValidPlan(p) && ValidPlan(q) && p.work == q.work && p.child == q.child && jobs >= 1 && jobs' >= 1
    requires Drained(Run(p, jobs, moves)) && !Broken(Run(p, jobs, moves))
    requires Drained(Run(q, jobs', moves')) && !Broken(Run(q, jobs', moves'))
    ensures Run(p, jobs, moves).blocks == Run(q, jobs', moves').blocks
  {
    DrainedIsComplete(p, jobs, moves);
    DrainedIsComplete(q, jobs', moves');
  }

  // ---------- Every run drains ----------

  ghost function Rank(pc: Pc): nat {
    match pc
    case Fetching => 1 case Fetched(_) => 4 case Supervising(_) => 3 case Storing(_, _) => 2
    case Returned => 0 case Panicked => 0
  }

  ghost function Fuel(p: Plan, s: Pool): nat {
    SumOver(s.pcs, Rank) + 5 * (if s.cursor < |p.work| then |p.work| - s.cursor else 0)
  }

  /** Every action of a live worker uses up fuel, so no interleaving goes on forever. */
  lemma ActDrains(p: Plan, s: Pool, m: Move)
    requires Inv(p, s) && Live(s, m.worker)
    ensures Fuel(p, Act(p, s, m)) < Fuel(p, s)
  {
    var s' := Act(p, s, m);
    SumOverUpdate(s.pcs, Rank, m.worker, s'.pcs[m.worker]);
    assert s'.pcs == s.pcs[m.worker := s'.pcs[m.worker]];
  }

  /** Every move of the sequence was made by a worker that was still live. */
  ghost predicate Productive(p: Plan, jobs: nat, moves: seq<Move>)
    requires ValidPlan(p)
    decreases |moves|
  {
    moves != [] ==>
      && Productive(p, jobs, moves[..|moves| - 1])
      && Live(Run(p, jobs, moves[..|moves| - 1]), moves[|moves| - 1].worker)
  }

  /** Hence every run drains within a bound fixed by the work list and the job count. */
  lemma {:induction false} RunsEnd(p: Plan, jobs: nat, moves: seq<Move>)
    requires ValidPlan(p) && Productive(p, jobs, moves)
    ensures |moves| + Fuel(p, Run(p, jobs, moves)) <= Fuel(p, Start(p, jobs))
    decreases |moves|
  {
    if moves != [] {
      var before := moves[..|moves| - 1];
      RunsEnd(p, jobs, before);
      ActDrains(p, Run(p, jobs, before), moves[|moves| - 1]);
    }
  }
}
