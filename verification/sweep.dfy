/**
 * One binary's sweep (examples/bin_sweep.rs:669-723, 918-983, 1101-1294): the largest functions
 * are chosen, each is spawned in a child under the binary's time budget, and the outcome lands
 * in three places: the function's own record, one of seven counters, and a family key with a
 * count.  The clock readings and what each spawn returns are given.  What is proved is that the
 * three places agree: every record is counted once, every failure has a family of its own class,
 * and the family counts of a class add up to the counter of that class.
 */
module Sweep {
  import opened Common
  import opened Sorting

  // ---------- Text ----------

  predicate OccursAt(s: string, pattern: string, k: nat) {
    k + |pattern| <= |s| && s[k..k + |pattern|] == pattern
  }

  /** The first place at or after `i` where `pattern` occurs. */
  function IndexFrom(s: string, pattern: string, i: nat): (r: Option<nat>)
    requires i <= |s|
    ensures r.Some? ==> i <= r.value && OccursAt(s, pattern, r.value)
    ensures forall k | i <= k && (r.None? || k < r.value) :: !OccursAt(s, pattern, k)
    decreases |s| - i
  {
    if i + |pattern| > |s| then None
    else if OccursAt(s, pattern, i) then Some(i)
    else IndexFrom(s, pattern, i + 1)
  }

  predicate Contains(s: string, pattern: string) { IndexFrom(s, pattern, 0).Some? }

  predicate StartsWith(s: string, prefix: string) { |prefix| <= |s| && s[..|prefix|] == prefix }

  function Head(s: string, n: nat): string { if |s| <= n then s else s[..n] }

  /** The second piece of `s` split at `pattern`. */
  function SecondPiece(s: string, pattern: string): string {
    match IndexFrom(s, pattern, 0)
    case None => ""
    case Some(i) =>
      var rest := s[i + |pattern|..];
      match IndexFrom(rest, pattern, 0)
      case None => rest
      case Some(j) => rest[..j]
  }

  function NormalizeLoc(loc: string): string { if StartsWith(loc, "src/") then loc[4..] else loc }

  // ---------- Families ----------

  function PanicFamily(loc: string, msg: string): string {
    if loc == "prettyprint.rs:3946" || Contains(msg, "indentstack") then "K:PRETTYFLUSH-3946"
    else if Contains(msg, "Forced merge caused intersection") || StartsWith(loc, "merge.rs:") then "K:MERGE-FORCEDINTERSECT"
    else if Contains(msg, "block_insert_op") || loc == "funcdata.rs:4984" then "K:DBLHI-UNINSERT-4984"
    else if loc != "" then "NEW:PANIC:" + loc
    else "NEW:PANIC:MSG:" + Head(msg, 72)
  }

  function ErrorFamily(msg: string): string {
    if Contains(msg, "NULL local type") then "K:NULLLOCALTYPE"
    else if Contains(msg, "flow generation failed") then "E:FLOWFAIL"
    else if Contains(msg, "action pipeline failed") then "E:PIPELINE" + Head(SecondPiece(msg, "action pipeline failed"), 56)
    else if msg != "" then "E:ERR:" + Head(msg, 72)
    else "E:ERR-EMPTY"
  }

  function CrashFamily(msg: string): string {
    if Contains(msg, "has overflowed its stack") || Contains(msg, "stack overflow") then "C:STACKOVERFLOW"
    else "C:CRASH:" + Head(msg, 72)
  }

  function ClassifyFamily(status: string, loc: string, msg: string): string {
    if status == "panic" then PanicFamily(NormalizeLoc(loc), msg)
    else if status == "error" then ErrorFamily(msg)
    else if status == "timeout" then "T:TIMEOUT"
    else if status == "crash" then CrashFamily(msg)
    else if status == "worker-failure" then "C:WORKER-FAILURE"
    else ""
  }

  const FAILURES: set<string> := {"panic", "error", "timeout", "crash", "worker-failure"}

  /** The class of outcomes a family key belongs to. */
  function ClassOf(family: string): string {
    if family == "" then ""
    else if family == "K:NULLLOCALTYPE" || family[0] == 'E' then "error"
    else if family[0] == 'K' || family[0] == 'N' then "panic"
    else if family[0] == 'T' then "timeout"
    else if family == "C:WORKER-FAILURE" then "worker-failure"
    else "crash"
  }

  lemma PanicClass(loc: string, msg: string)
    ensures PanicFamily(loc, msg) != "" && ClassOf(PanicFamily(loc, msg)) == "panic"
  {
    var f := PanicFamily(loc, msg);
    assert f[0] == 'K' || f[0] == 'N';
    assert "K:NULLLOCALTYPE"[2] == 'N';
    assert f[0] == 'K' ==> f[2] != 'N';
  }

  lemma ErrorClass(msg: string)
    ensures ErrorFamily(msg) != "" && ClassOf(ErrorFamily(msg)) == "error"
  {
    var f := ErrorFamily(msg);
    assert f == "K:NULLLOCALTYPE" || f[0] == 'E';
  }

  lemma CrashClass(msg: string)
    ensures CrashFamily(msg) != "" && ClassOf(CrashFamily(msg)) == "crash"
  {
    var f := CrashFamily(msg);
    assert f[0] == 'C' && (f[2] == 'S' || f[2] == 'C');
    assert "C:WORKER-FAILURE"[2] == 'W' && "K:NULLLOCALTYPE"[0] == 'K';
  }

  /** A family key tells the status it came from; only failures have one. */
  lemma FamilyTellsStatus(status: string, loc: string, msg: string)
    ensures status in FAILURES ==> ClassifyFamily(status, loc, msg) != "" && ClassOf(ClassifyFamily(status, loc, msg)) == status
    ensures status !in FAILURES ==> ClassifyFamily(status, loc, msg) == ""
  {
    if status == "panic" { PanicClass(NormalizeLoc(loc), msg); }
    else if status == "error" { ErrorClass(msg); }
    else if status == "timeout" { assert ClassOf("T:TIMEOUT") == "timeout"; }
    else if status == "crash" { CrashClass(msg); }
  }

  ghost predicate Mentions(s: string, pattern: string) { exists k: nat :: OccursAt(s, pattern, k) }

  lemma ContainsMeans(s: string, pattern: string)
    ensures Contains(s, pattern) <==> Mentions(s, pattern)
  {
  }

  /** Each known panic family is reached by its own signature alone, tested in this order, and no
      location or message fakes a known key; a panic of no known family is named by its place, or
      by the head of its text when it has none. */
  lemma KnownPanics(loc: string, msg: string)
    ensures var f := PanicFamily(loc, msg);
      var flush := loc == "prettyprint.rs:3946" || Mentions(msg, "indentstack");
      var merge := Mentions(msg, "Forced merge caused intersection") || StartsWith(loc, "merge.rs:");
      var insert := Mentions(msg, "block_insert_op") || loc == "funcdata.rs:4984";
      && (f == "K:PRETTYFLUSH-3946" <==> flush) && (f == "K:MERGE-FORCEDINTERSECT" <==> !flush && merge)
      && (f == "K:DBLHI-UNINSERT-4984" <==> !flush && !merge && insert)
      && (!flush && !merge && !insert ==>
            f == if loc == "" then "NEW:PANIC:MSG:" + msg[..if |msg| < 72 then |msg| else 72] else "NEW:PANIC:" + loc)
  {
    ContainsMeans(msg, "indentstack");
    ContainsMeans(msg, "Forced merge caused intersection");
    ContainsMeans(msg, "block_insert_op");
    var f := PanicFamily(loc, msg);
    assert "K:PRETTYFLUSH-3946"[2] == 'P' && "K:MERGE-FORCEDINTERSECT"[2] == 'M' && "K:DBLHI-UNINSERT-4984"[2] == 'D';
    assert f[0] == 'N' || f[2] == 'P' || f[2] == 'M' || f[2] == 'D';
  }

  /** Likewise for errors ... */
  lemma KnownErrors(msg: string)
    ensures var f := ErrorFamily(msg);
      var untyped, flow := Mentions(msg, "NULL local type"), Mentions(msg, "flow generation failed");
      && (f == "K:NULLLOCALTYPE" <==> untyped) && (f == "E:FLOWFAIL" <==> !untyped && flow)
      && (!untyped && !flow && !Mentions(msg, "action pipeline failed") ==>
            f == if msg == "" then "E:ERR-EMPTY" else "E:ERR:" + msg[..if |msg| < 72 then |msg| else 72])
  {
    ContainsMeans(msg, "NULL local type");
    ContainsMeans(msg, "flow generation failed");
    ContainsMeans(msg, "action pipeline failed");
    var f := ErrorFamily(msg);
    assert "K:NULLLOCALTYPE"[0] == 'K' && "E:FLOWFAIL"[2] == 'F';
    assert f[0] == 'K' || f[2] == 'F' || f[2] == 'P' || f[2] == 'E';
  }

  /** ... where a failed pipeline is named by what stands behind that phrase, up to the next. */
  lemma PipelineErrors(msg: string) returns (piece: string)
    requires Mentions(msg, "action pipeline failed")
    requires !Mentions(msg, "NULL local type") && !Mentions(msg, "flow generation failed")
    ensures exists i: nat :: FirstAt(msg, "action pipeline failed", i) && PieceOf(msg[i + 22..], "action pipeline failed", piece)
    ensures ErrorFamily(msg) == "E:PIPELINE" + piece[..if |piece| < 56 then |piece| else 56]
  {
    ContainsMeans(msg, "NULL local type");
    ContainsMeans(msg, "flow generation failed");
    ContainsMeans(msg, "action pipeline failed");
    piece := SecondPiece(msg, "action pipeline failed");
    PieceIsBetween(msg, "action pipeline failed");
    assert |"action pipeline failed"| == 22;
  }

  ghost predicate FirstAt(s: string, pattern: string, i: nat) {
    OccursAt(s, pattern, i) && forall k: nat | k < i :: !OccursAt(s, pattern, k)
  }

  /** `piece` is the text up to the first `pattern`, or all of it. */
  ghost predicate PieceOf(s: string, pattern: string, piece: string) {
    && piece <= s && (forall k: nat | k < |piece| :: !OccursAt(s, pattern, k))
    && (piece == s || OccursAt(s, pattern, |piece|))
  }

  lemma PieceIsBetween(s: string, pattern: string)
    requires Mentions(s, pattern)
    ensures exists i: nat :: FirstAt(s, pattern, i) && PieceOf(s[i + |pattern|..], pattern, SecondPiece(s, pattern))
  {
    var i := IndexFrom(s, pattern, 0).value;
    var rest := s[i + |pattern|..];
    assert FirstAt(s, pattern, i);
    if IndexFrom(rest, pattern, 0).Some? {
      var j := IndexFrom(rest, pattern, 0).value;
      assert |rest[..j]| == j;
    }
    assert PieceOf(rest, pattern, SecondPiece(s, pattern));
  }

  /** ... and for crashes, named by the head of what the child wrote last. */
  lemma KnownCrashes(msg: string)
    ensures var f := CrashFamily(msg);
      var stack := Mentions(msg, "has overflowed its stack") || Mentions(msg, "stack overflow");
      && (f == "C:STACKOVERFLOW" <==> stack) && (!stack ==> f == "C:CRASH:" + msg[..if |msg| < 72 then |msg| else 72])
  {
    ContainsMeans(msg, "has overflowed its stack");
    ContainsMeans(msg, "stack overflow");
    var f := CrashFamily(msg);
    assert "C:STACKOVERFLOW"[2] == 'S' && (f[2] == 'S' || f[2] == 'C');
  }

  // ---------- Selection ----------

  datatype Function = Function(vaddr: nat, size: nat)

  /** Larger first, then lower address. */
  predicate Before(functions: seq<Function>, a: nat, b: nat) {
    && a < |functions| && b < |functions|
    && (functions[a].size > functions[b].size
        || (functions[a].size == functions[b].size && functions[a].vaddr <= functions[b].vaddr))
  }

  /** ... and then lower index: the order a stable sort of the indices ends in. */
  predicate Ahead(functions: seq<Function>, a: nat, b: nat) {
    Before(functions, a, b) && (Before(functions, b, a) ==> a <= b)
  }

  function Order(functions: seq<Function>): (nat, nat) -> bool {
    (a: nat, b: nat) => Before(functions, a, b)
  }

  function InOrder(functions: seq<Function>): seq<nat> {
    SortBy<nat>(Range(|functions|), Order(functions))
  }

  method Choose(functions: seq<Function>, maxFuncs: nat) returns (chosen: seq<nat>)
    ensures TopChosen(functions, maxFuncs, chosen)
  {
    ChosenAreTop(functions, maxFuncs);
    var order := InOrder(functions);
    chosen := SortBy<nat>(Take(order, maxFuncs), AtMost);
  }

  function Take<T>(s: seq<T>, n: nat): seq<T> { if |s| <= n then s else s[..n] }

  ghost predicate AllAhead(functions: seq<Function>, s: seq<nat>) {
    forall i, j | 0 <= i < j < |s| :: Ahead(functions, s[i], s[j])
  }

  lemma {:induction false} StableOrder(functions: seq<Function>, s: seq<nat>)
    requires forall i | 0 <= i < |s| :: s[i] < |functions|
    requires forall i, j | 0 <= i < j < |s| :: s[i] < s[j]
    ensures AllAhead(functions, SortBy<nat>(s, Order(functions)))
    decreases |s|
  {
    if s != [] {
      var le := Order(functions);
      var rest := SortBy<nat>(s[1..], le);
      StableOrder(functions, s[1..]);
      forall i | 0 <= i < |rest| ensures s[0] < rest[i] < |functions| {
        assert rest[i] in multiset(rest);
        assert rest[i] in s[1..];
      }
      InsertAhead(functions, s[0], rest);
    }
  }

  lemma {:induction false} InsertAhead(functions: seq<Function>, x: nat, s: seq<nat>)
    requires x < |functions| && forall i | 0 <= i < |s| :: x < s[i] < |functions|
    requires AllAhead(functions, s)
    ensures AllAhead(functions, Insert<nat>(x, s, Order(functions)))
    decreases |s|
  {
    var le := Order(functions);
    if s != [] && !le(x, s[0]) {
      var rest := Insert<nat>(x, s[1..], le);
      InsertAhead(functions, x, s[1..]);
      forall j | 0 <= j < |rest| ensures Ahead(functions, s[0], rest[j]) {
        assert rest[j] in multiset(rest);
        assert rest[j] == x || rest[j] in s[1..];
      }
    } else if s != [] {
      forall j | 0 <= j < |s| ensures Ahead(functions, x, s[j]) {
        assert j > 0 ==> Ahead(functions, s[0], s[j]);
      }
    }
  }

  /** The selection: ascending distinct indices, as many as asked for or as there are, and every
      chosen function ahead of every other: larger, or as large at a lower address, or first in
      the list. */
  ghost predicate TopChosen(functions: seq<Function>, maxFuncs: nat, chosen: seq<nat>) {
    && |chosen| == (if |functions| <= maxFuncs then |functions| else maxFuncs)
    && (forall i, j | 0 <= i < j < |chosen| :: chosen[i] < chosen[j])
    && (forall a | a in chosen :: a < |functions|)
    && (forall a: nat, b: nat | a in chosen && b < |functions| && b !in chosen :: Ahead(functions, a, b))
  }

  lemma ChosenAreTop(functions: seq<Function>, maxFuncs: nat)
    ensures TopChosen(functions, maxFuncs, SortBy<nat>(Take(InOrder(functions), maxFuncs), AtMost))
  {
    var order := InOrder(functions);
    OrderFacts(functions);
    var top := Take(order, maxFuncs);
    assert Distinct(top) by { assert forall i | 0 <= i < |top| :: top[i] == order[i]; }
    TopOfOrder(functions, order, top, SortBy<nat>(top, AtMost));
  }

  lemma OrderFacts(functions: seq<Function>)
    ensures var order := InOrder(functions);
      && AllAhead(functions, order) && Distinct(order) && |order| == |functions|
      && forall a: nat :: a in order <==> a < |functions|
  {
    StableOrder(functions, Range(|functions|));
    PermutationFacts(InOrder(functions), |functions|);
  }

  lemma TopOfOrder(functions: seq<Function>, order: seq<nat>, top: seq<nat>, chosen: seq<nat>)
    requires AllAhead(functions, order) && top <= order && Distinct(top)
    requires forall a: nat :: a in order <==> a < |functions|
    requires chosen == SortBy<nat>(top, AtMost)
    ensures forall i, j | 0 <= i < j < |chosen| :: chosen[i] < chosen[j]
    ensures forall a | a in chosen :: a < |functions|
    ensures forall a: nat, b: nat | a in chosen && b < |functions| && b !in chosen :: Ahead(functions, a, b)
  {
    SortBySorted(top, AtMost);
    SameMembers(top, chosen);
    StrictlyAscending(top, chosen);
    forall a: nat | a in top ensures a < |functions| {
      var i :| 0 <= i < |top| && top[i] == a;
      assert order[i] == a && a in order;
    }
    forall a: nat, b: nat | a in chosen && b < |functions| && b !in chosen ensures Ahead(functions, a, b) {
      HeadFirst(functions, order, top, a, b);
    }
  }

  lemma HeadFirst(functions: seq<Function>, order: seq<nat>, top: seq<nat>, a: nat, b: nat)
    requires top <= order && a in top && b in order && b !in top
    requires AllAhead(functions, order)
    ensures Ahead(functions, a, b)
  {
    var i :| 0 <= i < |top| && top[i] == a;
    var j :| 0 <= j < |order| && order[j] == b;
    assert j >= |top| by { assert forall k | 0 <= k < |top| :: order[k] == top[k]; }
    assert Ahead(functions, order[i], order[j]);
  }

  lemma StrictlyAscending(top: seq<nat>, chosen: seq<nat>)
    requires multiset(top) == multiset(chosen) && SortedBy(chosen, AtMost) && Distinct(top)
    ensures forall i, j | 0 <= i < j < |chosen| :: chosen[i] < chosen[j]
  {
    DistinctRearranged(top, chosen);
    forall i, j | 0 <= i < j < |chosen| ensures chosen[i] < chosen[j] {
      assert AtMost(chosen[i], chosen[j]) && chosen[i] != chosen[j];
    }
  }

  // ---------- One function's outcome ----------

  datatype WorkerResult = WorkerResult(status: string, panicLoc: string, panicMsg: string, errMsg: string)

  datatype Exit = Exit(code: Option<int>, signal: Option<string>)

  /** What one spawn returns: no process at all, or an exit with the worker's record if one
      could be read from its output. */
  datatype Spawned = SpawnFailed | Ran(worker: Option<WorkerResult>, exit: Exit, stderr: string)

  datatype Outcome = Outcome(status: string, worker: Option<WorkerResult>, stderr: string)

  /** The status decision of one spawn. */
  function OutcomeOf(r: Spawned): Option<Outcome> {
    match r
    case SpawnFailed => None
    case Ran(worker, exit, stderr) =>
      var status :=
        if worker.Some? then worker.value.status
        else if exit.code == Some(124) || exit.code == Some(137) then "timeout"
        else if exit.signal.Some? then "crash:" + exit.signal.value
        else "";
      Some(if status == "" then Outcome("worker-failure", None, stderr) else Outcome(status, worker, stderr))
  }

  /** Spawn attempts by function index and attempt number. */
  type Spawner = (nat, nat) -> Spawned

  /** A worker failure is retried once; a failed spawn is not. */
  function FinalOutcome(spawn: Spawner, index: nat): (Option<Outcome>, nat) {
    var first := OutcomeOf(spawn(index, 1));
    if first.Some? && first.value.status == "worker-failure" then (OutcomeOf(spawn(index, 2)), 2) else (first, 1)
  }

  function StatusClass(status: string): string { if StartsWith(status, "crash:") then "crash" else status }

  function FamilyOf(o: Outcome): string {
    var s := StatusClass(o.status);
    if s == "panic" then
      ClassifyFamily(s, if o.worker.Some? then o.worker.value.panicLoc else "", if o.worker.Some? then o.worker.value.panicMsg else "")
    else if s == "error" then ClassifyFamily(s, "", if o.worker.Some? then o.worker.value.errMsg else "")
    else if s == "crash" then ClassifyFamily(s, "", o.stderr)
    else ClassifyFamily(s, "", "")
  }

  // ---------- The sweep ----------

  datatype Config = Config(maxFuncs: nat, budgetMs: nat, listOnly: bool)

  datatype FuncRecord = FuncRecord(index: nat, status: string, family: string, attempt: nat)

  datatype Counters = Counters(
    ok: nat, panic: nat, error: nat, timeout: nat, crash: nat, budgetSkipped: nat, workerFailure: nat)

  datatype Report = Report(
    selected: nat, attempted: nat, counts: Counters, families: seq<(string, nat)>, records: seq<FuncRecord>)

  function OverBudget(config: Config, elapsed: nat): bool { elapsed + 3000 > config.budgetMs }

  /** The record of one chosen function. */
  function RecordOf(config: Config, spawn: Spawner, index: nat, elapsed: nat): FuncRecord {
    if config.listOnly then FuncRecord(index, "planned", "", 0)
    else if OverBudget(config, elapsed) then FuncRecord(index, "budget-skipped", "", 0)
    else
      var (outcome, attempt) := FinalOutcome(spawn, index);
      if outcome.None? then FuncRecord(index, "worker-failure", "", attempt)
      else FuncRecord(index, StatusClass(outcome.value.status), FamilyOf(outcome.value), attempt)
  }

  /** The family counted for it: a failed spawn is counted although its record names none. */
  function KeyOf(config: Config, spawn: Spawner, index: nat, elapsed: nat): string {
    if config.listOnly || OverBudget(config, elapsed) then ""
    else if FinalOutcome(spawn, index).0.None? then "C:WORKER-FAILURE"
    else FamilyOf(FinalOutcome(spawn, index).0.value)
  }

  // ---------- What a record says, spawn by spawn ----------

  /** The status a spawn's record carries: the worker's own, or how the process ended. */
  ghost predicate Says(r: Spawned, s: string) {
    r.Ran? &&
    match r.worker
    case Some(w) =>
      if w.status == "" then s == "worker-failure"
      else if |w.status| >= 6 && w.status[..6] == "crash:" then s == "crash"
      else s == w.status
    case None =>
      if r.exit.code == Some(124) || r.exit.code == Some(137) then s == "timeout"
      else s == (if r.exit.signal.Some? then "crash" else "worker-failure")
  }

  /** The spawn a record is about: the second after a worker failure, else the first. */
  ghost function Deciding(spawn: Spawner, index: nat): Spawned {
    if Says(spawn(index, 1), "worker-failure") then spawn(index, 2) else spawn(index, 1)
  }

  /** Outside list-only mode and within the budget, a record repeats what its deciding spawn says; a
      spawn that fails is a worker failure and is not retried. */
  lemma RetriedOnce(config: Config, spawn: Spawner, index: nat, elapsed: nat, s: string)
    requires !config.listOnly && elapsed + 3000 <= config.budgetMs
    ensures var f, r := RecordOf(config, spawn, index, elapsed), Deciding(spawn, index);
      && f.index == index && f.attempt == (if Says(spawn(index, 1), "worker-failure") then 2 else 1)
      && (f.status == s <==> if r.SpawnFailed? then s == "worker-failure" else Says(r, s))
      && KeyOf(config, spawn, index, elapsed) == (if r.SpawnFailed? then "C:WORKER-FAILURE" else f.family)
  {
    StatusSaid(spawn(index, 1), s);
    StatusSaid(spawn(index, 2), s);
    StatusSaid(spawn(index, 1), "worker-failure");
  }

  lemma StatusSaid(r: Spawned, s: string)
    ensures OutcomeOf(r).None? <==> r.SpawnFailed?
    ensures r.Ran? ==> (StatusClass(OutcomeOf(r).value.status) == s <==> Says(r, s))
    ensures r.Ran? ==> (OutcomeOf(r).value.status == "worker-failure" <==> Says(r, "worker-failure"))
  {
    assert "worker-failure"[0] == 'w' && "timeout"[0] == 't' && "crash:"[0] == 'c' && |"crash:"| == 6;
    if r.Ran? {
      var status := OutcomeOf(r).value.status;
      if StartsWith(status, "crash:") { assert status[0] == status[..6][0] == 'c'; }
      if r.worker.None? && r.exit.signal.Some? { assert ("crash:" + r.exit.signal.value)[..6] == "crash:"; }
    }
  }

  /** The family of a record is read off its deciding spawn: the panic's place and text, the
      error's text, or the process's last words. */
  lemma FamilyFromSpawn(config: Config, spawn: Spawner, index: nat, elapsed: nat)
    requires !config.listOnly && elapsed + 3000 <= config.budgetMs
    ensures var f, r := RecordOf(config, spawn, index, elapsed).family, Deciding(spawn, index);
      && (r.SpawnFailed? ==> f == "")
      && (Says(r, "panic") ==> f == PanicFamily(NormalizeLoc(r.worker.value.panicLoc), r.worker.value.panicMsg))
      && (Says(r, "error") ==> f == ErrorFamily(r.worker.value.errMsg))
      && (Says(r, "crash") ==> f == CrashFamily(r.stderr))
      && (Says(r, "timeout") ==> f == "T:TIMEOUT") && (Says(r, "worker-failure") ==> f == "C:WORKER-FAILURE")
      && (Says(r, "ok") ==> f == "")
  {
    FamilySaid(spawn(index, 1));
    FamilySaid(spawn(index, 2));
    StatusSaid(spawn(index, 1), "worker-failure");
  }

  lemma FamilySaid(r: Spawned)
    ensures r.Ran? ==>
      var f := FamilyOf(OutcomeOf(r).value);
      && (Says(r, "panic") ==> f == PanicFamily(NormalizeLoc(r.worker.value.panicLoc), r.worker.value.panicMsg))
      && (Says(r, "error") ==> f == ErrorFamily(r.worker.value.errMsg))
      && (Says(r, "crash") ==> f == CrashFamily(r.stderr))
      && (Says(r, "timeout") ==> f == "T:TIMEOUT") && (Says(r, "worker-failure") ==> f == "C:WORKER-FAILURE")
      && (Says(r, "ok") ==> f == "")
  {
    StatusSaid(r, "panic");
    StatusSaid(r, "error");
    StatusSaid(r, "crash");
    StatusSaid(r, "timeout");
    StatusSaid(r, "ok");
    StatusSaid(r, "worker-failure");
  }

  function CountStatus(records: seq<FuncRecord>, status: string): nat {
    if records == [] then 0
    else CountStatus(records[..|records| - 1], status) + (if records[|records| - 1].status == status then 1 else 0)
  }

  /** Skipped for the budget, without any attempt. */
  predicate Skipped(f: FuncRecord) { f.status == "budget-skipped" && f.attempt == 0 }

  function CountSkipped(records: seq<FuncRecord>): nat {
    if records == [] then 0
    else CountSkipped(records[..|records| - 1]) + (if Skipped(records[|records| - 1]) then 1 else 0)
  }

  function Times(keys: seq<string>, key: string): nat {
    if keys == [] then 0
    else Times(keys[..|keys| - 1], key) + (if keys[|keys| - 1] == key then 1 else 0)
  }

  /** The counters are the status counts. */
  ghost predicate Tallied(c: Counters, records: seq<FuncRecord>) {
    && c.ok == CountStatus(records, "ok") && c.panic == CountStatus(records, "panic")
    && c.error == CountStatus(records, "error") && c.timeout == CountStatus(records, "timeout")
    && c.crash == CountStatus(records, "crash") && c.budgetSkipped == CountSkipped(records)
    && c.workerFailure == CountStatus(records, "worker-failure")
  }

  /** The counter an outcome bumps.  Only a worker can report ok, panic or error. */
  function Bump(c: Counters, o: Outcome): Counters {
    var s := StatusClass(o.status);
    if o.worker.Some? && s == "ok" then c.(ok := c.ok + 1)
    else if o.worker.Some? && s == "panic" then c.(panic := c.panic + 1)
    else if o.worker.Some? && s == "error" then c.(error := c.error + 1)
    else if s == "timeout" then c.(timeout := c.timeout + 1)
    else if s == "crash" then c.(crash := c.crash + 1)
    else if s == "worker-failure" then c.(workerFailure := c.workerFailure + 1)
    else c
  }

  lemma BumpTallies(c: Counters, records: seq<FuncRecord>, r: Spawned, f: FuncRecord)
    requires Tallied(c, records) && OutcomeOf(r).Some? && f.status == StatusClass(OutcomeOf(r).value.status)
    requires f.attempt > 0
    ensures Tallied(Bump(c, OutcomeOf(r).value), records + [f])
  {
    assert (records + [f])[..|records|] == records;
  }

  /** `counts` is the tally of the keys so far. */
  ghost predicate KeyTally(counts: map<string, nat>, keys: seq<string>) {
    && (forall k :: k in counts <==> k in keys && k != "")
    && (forall k | k in counts :: counts[k] == Times(keys, k))
  }

  method CountKey(counts: map<string, nat>, key: string, ghost keys: seq<string>) returns (more: map<string, nat>)
    requires KeyTally(counts, keys)
    ensures KeyTally(more, keys + [key])
  {
    assert (keys + [key])[..|keys|] == keys;
    NoTimes(keys, key);
    if key == "" { return counts; }
    more := counts[key := if key in counts then counts[key] + 1 else 1];
  }

  lemma {:induction false} NoTimes(keys: seq<string>, key: string)
    ensures Times(keys, key) > 0 <==> key in keys
    decreases |keys|
  {
    if keys != [] {
      NoTimes(keys[..|keys| - 1], key);
      assert keys == keys[..|keys| - 1] + [keys[|keys| - 1]];
    }
  }

  /** One turn of the loop over the chosen functions. */
  method SweepOne(config: Config, spawn: Spawner, index: nat, elapsed: nat, c: Counters, ghost records: seq<FuncRecord>)
    returns (record: FuncRecord, key: string, c': Counters)
    requires Tallied(c, records)
    ensures record == RecordOf(config, spawn, index, elapsed) && key == KeyOf(config, spawn, index, elapsed)
    ensures Tallied(c', records + [record])
  {
    if config.listOnly {
      record, key, c' := FuncRecord(index, "planned", "", 0), "", c;
      OtherTallies(c, records, record);
      return;
    }
    if OverBudget(config, elapsed) {
      record, key, c' := FuncRecord(index, "budget-skipped", "", 0), "", c.(budgetSkipped := c.budgetSkipped + 1);
      SkippedTallies(c, records, record);
      return;
    }
    var result, attempt := spawn(index, 1), 1;
    var outcome := OutcomeOf(result);
    if outcome.Some? && outcome.value.status == "worker-failure" {
      attempt := 2;
      result := spawn(index, 2);
      outcome := OutcomeOf(result);
    }
    if outcome.None? {
      record, key, c' := FuncRecord(index, "worker-failure", "", attempt), "C:WORKER-FAILURE", c.(workerFailure := c.workerFailure + 1);
      FailureTallies(c, records, record);
      return;
    }
    record := FuncRecord(index, StatusClass(outcome.value.status), FamilyOf(outcome.value), attempt);
    key, c' := record.family, Bump(c, outcome.value);
    BumpTallies(c, records, result, record);
  }

  lemma OtherTallies(c: Counters, records: seq<FuncRecord>, f: FuncRecord)
    requires Tallied(c, records) && f.status == "planned"
    ensures Tallied(c, records + [f])
  {
    assert (records + [f])[..|records|] == records;
  }

  lemma SkippedTallies(c: Counters, records: seq<FuncRecord>, f: FuncRecord)
    requires Tallied(c, records) && Skipped(f)
    ensures Tallied(c.(budgetSkipped := c.budgetSkipped + 1), records + [f])
  {
    assert (records + [f])[..|records|] == records;
  }

  lemma FailureTallies(c: Counters, records: seq<FuncRecord>, f: FuncRecord)
    requires Tallied(c, records) && f.status == "worker-failure"
    ensures Tallied(c.(workerFailure := c.workerFailure + 1), records + [f])
  {
    assert (records + [f])[..|records|] == records;
  }

  predicate TextAtMost(a: string, b: string) {
    a == "" || (b != "" && (a[0] < b[0] || (a[0] == b[0] && TextAtMost(a[1..], b[1..]))))
  }

  /** Higher counts first, then by name. */
  predicate MoreFirst(x: (string, nat), y: (string, nat)) { x.1 > y.1 || (x.1 == y.1 && TextAtMost(x.0, y.0)) }

  lemma {:induction false} TextTotal(a: string, b: string)
    ensures TextAtMost(a, b) || TextAtMost(b, a)
  {
    if a != "" && b != "" { TextTotal(a[1..], b[1..]); }
  }

  lemma {:induction false} TextTransitive(a: string, b: string, c: string)
    requires TextAtMost(a, b) && TextAtMost(b, c)
    ensures TextAtMost(a, c)
  {
    if a != "" && a[0] == b[0] == c[0] { TextTransitive(a[1..], b[1..], c[1..]); }
  }

  lemma MoreFirstOrders()
    ensures TotalPreorder(MoreFirst)
  {
    forall x: (string, nat), y: (string, nat) ensures MoreFirst(x, y) || MoreFirst(y, x) {
      TextTotal(x.0, y.0);
    }
    forall x: (string, nat), y: (string, nat), z: (string, nat) | MoreFirst(x, y) && MoreFirst(y, z) ensures MoreFirst(x, z) {
      if x.1 == y.1 == z.1 { TextTransitive(x.0, y.0, z.0); }
    }
  }

  /** The families of the report: one entry for each counted key, with its count. */
  ghost predicate FamiliesOf(families: seq<(string, nat)>, keys: seq<string>) {
    && Distinct(families) && SortedBy(families, MoreFirst)
    && (forall f | f in families :: f.0 in keys && f.0 != "" && f.1 == Times(keys, f.0))
    && (forall k | k in keys && k != "" :: (k, Times(keys, k)) in families)
  }

  method SortFamilies(counts: map<string, nat>, ghost keys: seq<string>) returns (families: seq<(string, nat)>)
    requires KeyTally(counts, keys)
    ensures FamiliesOf(families, keys)
  {
    var all: seq<(string, nat)>, left := [], counts.Keys;
    while left != {}
      invariant left <= counts.Keys && Distinct(all)
      invariant forall f :: f in all <==> f.0 in counts.Keys - left && f.1 == counts[f.0]
      decreases |left|
    {
      var k :| k in left;
      left := left - {k};
      all := all + [(k, counts[k])];
    }
    families := SortBy(all, MoreFirst);
    MoreFirstOrders();
    SortBySorted(all, MoreFirst);
    DistinctRearranged(all, families);
    SameMembers(all, families);
  }

  /** Each record and each counted key is that of its chosen function. */
  ghost predicate Lockstep(config: Config, spawn: Spawner, chosen: seq<nat>, clock: nat -> nat,
                           records: seq<FuncRecord>, keys: seq<string>)
  {
    && |records| == |keys| <= |chosen|
    && forall i | 0 <= i < |keys| ::
         records[i] == RecordOf(config, spawn, chosen[i], clock(i)) && keys[i] == KeyOf(config, spawn, chosen[i], clock(i))
  }

  lemma LockstepMore(config: Config, spawn: Spawner, chosen: seq<nat>, clock: nat -> nat, records: seq<FuncRecord>, keys: seq<string>)
    requires Lockstep(config, spawn, chosen, clock, records, keys) && |records| < |chosen|
    ensures var n := |records|;
      Lockstep(config, spawn, chosen, clock, records + [RecordOf(config, spawn, chosen[n], clock(n))], keys + [KeyOf(config, spawn, chosen[n], clock(n))])
  {
  }

  /** The loop over the chosen functions. */
  method SweepAll(config: Config, chosen: seq<nat>, clock: nat -> nat, spawn: Spawner)
    returns (c: Counters, counts: map<string, nat>, records: seq<FuncRecord>, ghost keys: seq<string>)
    ensures Lockstep(config, spawn, chosen, clock, records, keys) && |records| == |chosen|
    ensures Tallied(c, records) && KeyTally(counts, keys)
  {
    c, counts, records, keys := Counters(0, 0, 0, 0, 0, 0, 0), map[], [], [];
    for n := 0 to |chosen|
      invariant |records| == n && Lockstep(config, spawn, chosen, clock, records, keys)
      invariant Tallied(c, records) && KeyTally(counts, keys)
    {
      var record, key;
      record, key, c := SweepOne(config, spawn, chosen[n], clock(n), c, records);
      LockstepMore(config, spawn, chosen, clock, records, keys);
      counts := CountKey(counts, key, keys);
      records := records + [record];
      keys := keys + [key];
    }
  }

  lemma {:induction false} StatusAtMost(records: seq<FuncRecord>, status: string)
    ensures CountStatus(records, status) <= |records|
  {
    if records != [] { StatusAtMost(records[..|records| - 1], status); }
  }

  // ---------- Conservation ----------

  function Total(c: Counters): nat {
    c.ok + c.panic + c.error + c.timeout + c.crash + c.budgetSkipped + c.workerFailure
  }

  /** A record that falls under one of the seven counters. */
  predicate Accounted(f: FuncRecord) {
    f.status == "ok" || f.status == "panic" || f.status == "error" || f.status == "timeout" || f.status == "crash"
    || f.status == "worker-failure" || Skipped(f)
  }

  function CountAccounted(records: seq<FuncRecord>): nat {
    if records == [] then 0
    else CountAccounted(records[..|records| - 1]) + (if Accounted(records[|records| - 1]) then 1 else 0)
  }

  /** No record is counted twice. */
  lemma {:induction false} CountedOnce(records: seq<FuncRecord>)
    ensures CountStatus(records, "ok") + CountStatus(records, "panic") + CountStatus(records, "error")
      + CountStatus(records, "timeout") + CountStatus(records, "crash") + CountSkipped(records)
      + CountStatus(records, "worker-failure") == CountAccounted(records)
    decreases |records|
  {
    if records != [] { CountedOnce(records[..|records| - 1]); }
  }

  lemma {:induction false} AllAccounted(records: seq<FuncRecord>)
    ensures CountAccounted(records) <= |records| - CountStatus(records, "planned") <= |records|
    ensures CountAccounted(records) == |records| <==> forall f | f in records :: Accounted(f)
    decreases |records|
  {
    if records != [] {
      var n := |records| - 1;
      AllAccounted(records[..n]);
      assert records == records[..n] + [records[n]];
    }
  }

  /** Accounting is conserved: attempted, selected and the sum of the seven counters are all
      equal exactly when every record is ok, a failure, or skipped for the budget. */
  lemma Conserved(c: Counters, records: seq<FuncRecord>)
    requires Tallied(c, records)
    ensures (|records| - CountStatus(records, "planned") == |records| == Total(c)) <==> forall f | f in records :: Accounted(f)
  {
    CountedOnce(records);
    AllAccounted(records);
  }

  /** Workers report ok, panic or error (examples/bin_sweep.rs:850-880). */
  predicate Honest(r: Spawned) {
    r.Ran? && r.worker.Some? ==> r.worker.value.status == "ok" || r.worker.value.status == "panic" || r.worker.value.status == "error"
  }

  lemma HonestOutcome(r: Spawned)
    requires Honest(r) && OutcomeOf(r).Some?
    ensures var s := StatusClass(OutcomeOf(r).value.status);
      s == "ok" || s == "panic" || s == "error" || s == "timeout" || s == "crash" || s == "worker-failure"
  {
    if r.worker.None? && r.exit.code != Some(124) && r.exit.code != Some(137) && r.exit.signal.Some? {
      var status := "crash:" + r.exit.signal.value;
      assert status[..6] == "crash:";
    }
  }

  /** Outside list-only mode, workers that only report ok, panic or error keep every record
      accounted for, so the sweep's accounting is conserved. */
  lemma HonestWorkersConserve(config: Config, spawn: Spawner, index: nat, elapsed: nat)
    requires !config.listOnly && Honest(spawn(index, 1)) && Honest(spawn(index, 2))
    ensures Accounted(RecordOf(config, spawn, index, elapsed))
  {
    if OutcomeOf(spawn(index, 1)).Some? { HonestOutcome(spawn(index, 1)); }
    if OutcomeOf(spawn(index, 2)).Some? { HonestOutcome(spawn(index, 2)); }
  }

  ghost predicate HonestFor(spawn: Spawner, chosen: seq<nat>) {
    forall index | index in chosen :: Honest(spawn(index, 1)) && Honest(spawn(index, 2))
  }

  lemma HonestSweep(config: Config, spawn: Spawner, chosen: seq<nat>, clock: nat -> nat,
                    c: Counters, records: seq<FuncRecord>, keys: seq<string>)
    requires !config.listOnly && HonestFor(spawn, chosen)
    requires Lockstep(config, spawn, chosen, clock, records, keys) && Tallied(c, records)
    ensures |records| - CountStatus(records, "planned") == |records| == Total(c)
  {
    forall i | 0 <= i < |records| ensures Accounted(records[i]) {
      HonestWorkersConserve(config, spawn, chosen[i], clock(i));
    }
    Conserved(c, records);
  }

  /** The report of a finished loop. */
  ghost predicate ReportOf(config: Config, spawn: Spawner, chosen: seq<nat>, clock: nat -> nat, keys: seq<string>, report: Report) {
    && Lockstep(config, spawn, chosen, clock, report.records, keys)
    && |report.records| == |chosen| == report.selected
    && Tallied(report.counts, report.records) && FamiliesOf(report.families, keys)
    && report.attempted == |report.records| - CountStatus(report.records, "planned")
  }

  lemma HonestReport(config: Config, spawn: Spawner, chosen: seq<nat>, clock: nat -> nat, keys: seq<string>, report: Report)
    requires ReportOf(config, spawn, chosen, clock, keys, report) && !config.listOnly && HonestFor(spawn, chosen)
    ensures report.attempted == report.selected == Total(report.counts)
  {
    HonestSweep(config, spawn, chosen, clock, report.counts, report.records, keys);
  }

  /** Everything after the selection. */
  method SweepChosen(config: Config, chosen: seq<nat>, clock: nat -> nat, spawn: Spawner)
    returns (report: Report, ghost keys: seq<string>)
    ensures ReportOf(config, spawn, chosen, clock, keys, report)
  {
    var c, counts, records;
    c, counts, records, keys := SweepAll(config, chosen, clock, spawn);
    var families := SortFamilies(counts, keys);
    StatusAtMost(records, "planned");
    report := Report(|chosen|, |records| - CountStatus(records, "planned"), c, families, records);
  }

  /** The sweep of one binary's functions. */
  method SweepBinary(config: Config, functions: seq<Function>, clock: nat -> nat, spawn: Spawner)
    returns (report: Report, ghost chosen: seq<nat>, ghost keys: seq<string>)
    ensures TopChosen(functions, config.maxFuncs, chosen)
    ensures ReportOf(config, spawn, chosen, clock, keys, report)
    ensures |report.records| == report.selected == if |functions| <= config.maxFuncs then |functions| else config.maxFuncs
    ensures !config.listOnly && HonestFor(spawn, chosen) ==> report.attempted == report.selected == Total(report.counts)
  {
    var picked := Choose(functions, config.maxFuncs);
    chosen := picked;
    report, keys := SweepChosen(config, picked, clock, spawn);
    if !config.listOnly && HonestFor(spawn, chosen) { HonestReport(config, spawn, chosen, clock, keys, report); }
  }

  // ---------- Families ----------

  lemma FamilyClass(o: Outcome)
    ensures var s := StatusClass(o.status);
      if s in FAILURES then ClassOf(FamilyOf(o)) == s else FamilyOf(o) == ""
  {
    var s := StatusClass(o.status);
    if s == "panic" {
      FamilyTellsStatus(s, if o.worker.Some? then o.worker.value.panicLoc else "", if o.worker.Some? then o.worker.value.panicMsg else "");
    } else if s == "error" {
      FamilyTellsStatus(s, "", if o.worker.Some? then o.worker.value.errMsg else "");
    } else if s == "crash" {
      FamilyTellsStatus(s, "", o.stderr);
    } else {
      FamilyTellsStatus(s, "", "");
    }
  }

  /** The counted key of a record names the class of its status, and only failures have one. */
  lemma KeyClass(config: Config, spawn: Spawner, index: nat, elapsed: nat, c: string)
    requires c in FAILURES
    ensures ClassOf(KeyOf(config, spawn, index, elapsed)) == c <==> RecordOf(config, spawn, index, elapsed).status == c
  {
    var outcome := FinalOutcome(spawn, index).0;
    if outcome.Some? { FamilyClass(outcome.value); }
  }

  function ClassTotal(families: seq<(string, nat)>, c: string): nat {
    if families == [] then 0
    else
      var last := families[|families| - 1];
      ClassTotal(families[..|families| - 1], c) + (if ClassOf(last.0) == c then last.1 else 0)
  }

  predicate Named(families: seq<(string, nat)>, key: string) {
    exists f | f in families :: f.0 == key
  }

  /** Keys of class `c` that one of the families names. */
  function CountNamed(keys: seq<string>, families: seq<(string, nat)>, c: string): nat {
    if keys == [] then 0
    else
      var last := keys[|keys| - 1];
      CountNamed(keys[..|keys| - 1], families, c) + (if ClassOf(last) == c && Named(families, last) then 1 else 0)
  }

  lemma {:induction false} OneMoreFamily(keys: seq<string>, families: seq<(string, nat)>, f: (string, nat), c: string)
    requires !Named(families, f.0)
    ensures CountNamed(keys, families + [f], c) == CountNamed(keys, families, c) + (if ClassOf(f.0) == c then Times(keys, f.0) else 0)
    decreases |keys|
  {
    if keys != [] {
      OneMoreFamily(keys[..|keys| - 1], families, f, c);
      var k := keys[|keys| - 1];
      assert f in families + [f];
      assert Named(families + [f], k) <==> Named(families, k) || k == f.0 by {
        assert forall g | g in families :: g in families + [f];
      }
    }
  }

  lemma {:induction false} NoFamilies(keys: seq<string>, c: string)
    ensures CountNamed(keys, [], c) == 0
  {
    if keys != [] { NoFamilies(keys[..|keys| - 1], c); }
  }

  /** The last of distinct families has a name of its own. */
  lemma FreshName(families: seq<(string, nat)>, keys: seq<string>)
    requires families != [] && Distinct(families) && forall f | f in families :: f.1 == Times(keys, f.0)
    ensures var n := |families| - 1;
      && !Named(families[..n], families[n].0) && families == families[..n] + [families[n]]
      && forall g | g in families[..n] :: g in families
  {
    var n := |families| - 1;
    forall i | 0 <= i < n ensures families[i].0 != families[n].0 {
      assert families[i] in families && families[n] in families && families[i] != families[n];
    }
    forall g | g in families[..n] ensures g in families && g.0 != families[n].0 {
      var i :| 0 <= i < n && families[..n][i] == g;
      assert families[i] == g;
    }
  }

  lemma {:induction false} ClassTotals(families: seq<(string, nat)>, keys: seq<string>, c: string)
    requires Distinct(families) && forall f | f in families :: f.1 == Times(keys, f.0)
    ensures ClassTotal(families, c) == CountNamed(keys, families, c)
    decreases |families|
  {
    if families == [] {
      NoFamilies(keys, c);
    } else {
      var n := |families| - 1;
      var before, f := families[..n], families[n];
      FreshName(families, keys);
      ClassTotals(before, keys, c);
      OneMoreFamily(keys, before, f, c);
    }
  }

  lemma {:induction false} NamedIsStatus(config: Config, spawn: Spawner, chosen: seq<nat>, clock: nat -> nat,
                                         records: seq<FuncRecord>, keys: seq<string>, families: seq<(string, nat)>, c: string)
    requires Lockstep(config, spawn, chosen, clock, records, keys) && c in FAILURES
    requires forall k | k in keys && k != "" :: Named(families, k)
    ensures CountNamed(keys, families, c) == CountStatus(records, c)
    decreases |keys|
  {
    if keys != [] {
      var n := |keys| - 1;
      assert forall k | k in keys[..n] :: k in keys;
      NamedIsStatus(config, spawn, chosen, clock, records[..n], keys[..n], families, c);
      KeyClass(config, spawn, chosen[n], clock(n), c);
      assert ClassOf(keys[n]) == c <==> records[n].status == c;
      assert keys[n] in keys;
    }
  }

  /** The family counts of each class of failure add up to that class's status count: nothing
      is lost between the records, the counters and the families. */
  lemma FamiliesConserved(config: Config, spawn: Spawner, chosen: seq<nat>, clock: nat -> nat,
                          report: Report, keys: seq<string>, c: string)
    requires Lockstep(config, spawn, chosen, clock, report.records, keys)
    requires c in FAILURES && FamiliesOf(report.families, keys)
    ensures ClassTotal(report.families, c) == CountStatus(report.records, c)
  {
    ClassTotals(report.families, keys, c);
    NamedIsStatus(config, spawn, chosen, clock, report.records, keys, report.families, c);
  }

  // ---------- The budget ----------

  /** Under a clock that never goes back, once one chosen function is skipped for the budget so
      are all after it, and no skipped function was spawned. */
  lemma SkippedAreASuffix(config: Config, spawn: Spawner, chosen: seq<nat>, clock: nat -> nat, i: nat, j: nat)
    requires i <= j < |chosen| && forall m: nat, n: nat | m <= n :: clock(m) <= clock(n)
    ensures Skipped(RecordOf(config, spawn, chosen[i], clock(i))) ==> Skipped(RecordOf(config, spawn, chosen[j], clock(j)))
    ensures Skipped(RecordOf(config, spawn, chosen[i], clock(i))) <==> !config.listOnly && clock(i) + 3000 > config.budgetMs
  {
    assert clock(i) <= clock(j);
  }
}
