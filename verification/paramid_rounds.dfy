/** The self-hosted Parameter-ID iteration (examples/httpd_decompile.rs:3480-3620).  `harvest` stands for
    decompiling every task under a table of locks and collecting the call sites by callee; it is a
    function of the evidence tier and the table, nothing else. */
module ParamidRounds {
  import opened Common
  import opened EvidenceHistory
  import opened EvidenceMerge

  type Table = map<nat, Proto>
  type Records = map<nat, seq<Site>>

  datatype Setup = Setup(
    harvest: (bool, Table) -> Records, name: nat -> string, plt: set<nat>, admitPlt: bool,
    sticky: bool, loose: bool, strictFirst: bool)

  ghost predicate Lawful(c: Setup) {
    forall loose, table, e | e in c.harvest(loose, table) :: WellFormed(c.harvest(loose, table)[e])
  }

  predicate Admitted(c: Setup, e: nat) {
    e !in c.plt || c.admitPlt
  }

  // ---------- One round, as a function ----------

  ghost function MergeOf(c: Setup, recs: Records, d: Dead, e: nat): (Option<Proto>, EntryDead) {
    if e in recs && Admitted(c, e) then MergedAt(c.name(e), recs[e], At(d, e)) else (None, At(d, e))
  }

  ghost function NextTable(c: Setup, recs: Records, d: Dead): Table {
    map e | e in recs && MergeOf(c, recs, d, e).0.Some? :: MergeOf(c, recs, d, e).0.value
  }

  ghost function DeadAfter(c: Setup, recs: Records, d: Dead): Dead {
    Dead(set e | e in d.arity + recs.Keys && MergeOf(c, recs, d, e).1.arity,
         map e | e in d.slots.Keys + recs.Keys && MergeOf(c, recs, d, e).1.slots.Some? :: MergeOf(c, recs, d, e).1.slots.value,
         set e | e in d.ret + recs.Keys && MergeOf(c, recs, d, e).1.ret,
         set e | e in d.veto + recs.Keys && MergeOf(c, recs, d, e).1.veto)
  }

  lemma DeadAfterAt(c: Setup, recs: Records, d: Dead, e: nat)
    ensures At(DeadAfter(c, recs, d), e) == MergeOf(c, recs, d, e).1
  {
  }

  /** The commit step.  The record map is visited in an arbitrary order; the outcome is the
      function above, so no order can change it. */
  method MergeRound(c: Setup, recs: Records, dead: Dead) returns (next: Table, dead': Dead)
    requires forall e | e in recs :: WellFormed(recs[e])
    ensures next == NextTable(c, recs, dead) && dead' == DeadAfter(c, recs, dead)
  {
    next, dead' := map[], dead;
    var todo := recs.Keys;
    while todo != {}
      invariant todo <= recs.Keys
      invariant forall e: nat :: At(dead', e) == if e in todo then At(dead, e) else MergeOf(c, recs, dead, e).1
      invariant forall e: nat :: e in next <==> e in recs && e !in todo && MergeOf(c, recs, dead, e).0.Some?
      invariant forall e | e in next :: Some(next[e]) == MergeOf(c, recs, dead, e).0
    {
      var entry :| entry in todo;
      todo := todo - {entry};
      if entry in c.plt && !c.admitPlt { continue; }
      var proto, d := MergeCallsiteEvidence(entry, c.name(entry), recs[entry], dead');
      dead' := d;
      if proto.Some? { next := next[entry := proto.value]; }
    }
    forall e: nat ensures At(dead', e) == At(DeadAfter(c, recs, dead), e) { DeadAfterAt(c, recs, dead, e); }
    DeadExtensional(dead', DeadAfter(c, recs, dead));
    assert next == NextTable(c, recs, dead);
  }

  // ---------- Rounds ----------

  datatype State = State(table: Table, dead: Dead)

  ghost function Tier(c: Setup, round: nat): bool {
    if round == 1 && c.strictFirst then false else c.loose
  }

  ghost function Memory(c: Setup, s: State): Dead {
    if c.sticky then s.dead else NO_DEAD
  }

  ghost function Round(c: Setup, round: nat, s: State): State {
    var recs := c.harvest(Tier(c, round), s.table);
    State(NextTable(c, recs, Memory(c, s)), DeadAfter(c, recs, Memory(c, s)))
  }

  /** The state after steps 1 .. n. */
  ghost function Iterate(step: (nat, State) -> State, n: nat): State {
    if n == 0 then State(map[], NO_DEAD) else step(n, Iterate(step, n - 1))
  }

  /** `n` rounds with no early stop. */
  ghost function Rounds(c: Setup, n: nat): State {
    Iterate(StepOf(c), n)
  }

  ghost function StepOf(c: Setup): (nat, State) -> State {
    (r: nat, s: State) => Round(c, r, s)
  }

  lemma {:induction false} IterateStill(step: (nat, State) -> State, r: nat, n: nat)
    requires r <= n && forall k: nat | r < k <= n :: step(k, Iterate(step, r)) == Iterate(step, r)
    ensures Iterate(step, n) == Iterate(step, r)
    decreases n
  {
    if n > r { IterateStill(step, r, n - 1); }
  }

  lemma RoundTwice(c: Setup, recs: Records, d: Dead)
    ensures NextTable(c, recs, DeadAfter(c, recs, d)) == NextTable(c, recs, d)
    ensures DeadAfter(c, recs, DeadAfter(c, recs, d)) == DeadAfter(c, recs, d)
  {
    var d' := DeadAfter(c, recs, d);
    forall e: nat ensures MergeOf(c, recs, d', e) == MergeOf(c, recs, d, e) {
      DeadAfterAt(c, recs, d, e);
      if e in recs && Admitted(c, e) { MergeIdempotent(c.name(e), recs[e], At(d, e)); }
    }
    forall e: nat ensures At(DeadAfter(c, recs, d'), e) == At(d', e) {
      DeadAfterAt(c, recs, d', e);
      DeadAfterAt(c, recs, d, e);
    }
    DeadExtensional(DeadAfter(c, recs, d'), d');
  }

  /** Repeating a round that reproduced its table changes nothing at all. */
  lemma RoundRepeats(c: Setup, r: nat, r': nat, s: State)
    requires Tier(c, r) == Tier(c, r') && Round(c, r, s).table == s.table
    ensures Round(c, r', Round(c, r, s)) == Round(c, r, s)
  {
    RoundTwice(c, c.harvest(Tier(c, r), s.table), Memory(c, s));
  }

  /** A round that reproduces its table is a true fixed point: all further rounds give that
      table again, with or without the sticky memory. */
  lemma FixedPoint(c: Setup, r: nat, n: nat)
    requires 1 <= r <= n && (r > 1 || Tier(c, 1) == c.loose)
    requires Rounds(c, r).table == Rounds(c, r - 1).table
    ensures Rounds(c, n) == Rounds(c, r)
  {
    var step := StepOf(c);
    var before := Rounds(c, r - 1);
    assert Rounds(c, r) == Round(c, r, before);
    forall k: nat | r < k <= n ensures step(k, Rounds(c, r)) == Rounds(c, r) {
      RoundRepeats(c, r, k, before);
    }
    IterateStill(step, r, n);
  }

  method OneRound(c: Setup, round: nat, s: State) returns (s': State)
    requires Lawful(c)
    ensures s' == Round(c, round, s)
  {
    var dead := if c.sticky then s.dead else NO_DEAD;
    var loose := if round == 1 && c.strictFirst then false else c.loose;
    var recs := c.harvest(loose, s.table);
    assert forall e | e in recs :: WellFormed(c.harvest(loose, s.table)[e]);
    var next, dead' := MergeRound(c, recs, dead);
    s' := State(next, dead');
  }

  /** The first round from `r` on that reproduces its table, or the last one. */
  ghost function StopFrom(same: nat -> bool, r: nat, rounds: nat): nat
    decreases rounds - r
  {
    if r >= rounds then rounds else if same(r) then r else StopFrom(same, r + 1, rounds)
  }

  lemma {:induction false} StopFacts(same: nat -> bool, r: nat, rounds: nat)
    requires r <= rounds
    ensures var k := StopFrom(same, r, rounds);
      r <= k <= rounds && (k < rounds ==> same(k)) && forall j | r <= j < k :: !same(j)
    decreases rounds - r
  {
    if r < rounds && !same(r) { StopFacts(same, r + 1, rounds); }
  }

  ghost predicate SameTable(a: State, b: State) { a.table == b.table }

  /** Whether step `r` of a run reproduced the table it started from. */
  ghost predicate Repeated(run: nat -> State, r: nat) {
    r >= 1 && SameTable(run(r - 1), run(r))
  }

  ghost function Repeats(run: nat -> State): nat -> bool {
    (r: nat) => Repeated(run, r)
  }

  ghost function Run(step: (nat, State) -> State): nat -> State {
    (n: nat) => Iterate(step, n)
  }

  ghost function StopOf(run: nat -> State, rounds: nat): nat {
    StopFrom(Repeats(run), 1, rounds)
  }

  /** The round after which the loop stops. */
  ghost function EarlyStop(c: Setup, rounds: nat): nat {
    StopOf(Run(StepOf(c)), rounds)
  }

  lemma RoundsStep(c: Setup, n: nat)
    requires n >= 1
    ensures Rounds(c, n) == Round(c, n, Rounds(c, n - 1))
  {
  }

  lemma RepeatsAt(run: nat -> State, n: nat)
    requires n >= 1
    ensures Repeats(run)(n) == (run(n).table == run(n - 1).table)
  {
  }

  lemma StopNext(same: nat -> bool, rounds: nat, n: nat)
    requires 1 <= n <= rounds && StopFrom(same, 1, rounds) == StopFrom(same, n, rounds)
    ensures StopFrom(same, 1, rounds) == if same(n) then n else StopFrom(same, n + 1, rounds)
  {
  }

  /** One turn of the loop, seen from the search for the stop. */
  lemma StopStep(run: nat -> State, rounds: nat, n: nat)
    requires 1 <= n <= rounds && StopOf(run, rounds) == StopFrom(Repeats(run), n, rounds)
    ensures if run(n).table == run(n - 1).table then StopOf(run, rounds) == n
      else StopOf(run, rounds) == StopFrom(Repeats(run), n + 1, rounds)
  {
    RepeatsAt(run, n);
    StopNext(Repeats(run), rounds, n);
  }

  lemma StoppedEarly(c: Setup, rounds: nat, k: nat)
    requires 1 <= k <= rounds && (k < rounds ==> Rounds(c, k).table == Rounds(c, k - 1).table)
    ensures k > 1 || Tier(c, 1) == c.loose || k == rounds ==> Rounds(c, k).table == Rounds(c, rounds).table
  {
    if k < rounds && (k > 1 || Tier(c, 1) == c.loose) { FixedPoint(c, k, rounds); }
  }

  /** `run_paramid_iteration`: stopping at the first round that reproduces its table returns
      what running all the rounds would, unless a first round under a tier of its own is the
      one that stops it. */
  method RunParamidIteration(c: Setup, rounds: nat) returns (table: Table, stopped: nat)
    requires Lawful(c)
    ensures stopped == EarlyStop(c, rounds) <= rounds && table == Rounds(c, stopped).table
    ensures stopped > 1 || Tier(c, 1) == c.loose || stopped == rounds ==> table == Rounds(c, rounds).table
  {
    var s := State(map[], NO_DEAD);
    stopped := 0;
    ghost var run := Run(StepOf(c));
    while stopped < rounds
      invariant stopped <= rounds && s == Rounds(c, stopped)
      invariant StopOf(run, rounds) == StopFrom(Repeats(run), stopped + 1, rounds)
    {
      stopped := stopped + 1;
      var s' := OneRound(c, stopped, s);
      RoundsStep(c, stopped);
      StopStep(run, rounds, stopped);
      if s'.table == s.table {
        StoppedEarly(c, rounds, stopped);
        return s'.table, stopped;
      }
      s := s';
    }
    table := s.table;
  }

  // ---------- Exactly when the early stop is right ----------

  ghost predicate StopsRight(c: Setup, rounds: nat) {
    SameTable(Rounds(c, EarlyStop(c, rounds)), Rounds(c, rounds))
  }

  /** The policy of `c` with another harvest. */
  ghost function With(c: Setup, harvest: (bool, Table) -> Records): Setup { c.(harvest := harvest) }

  /** After a step that reproduces its table no later step changes anything. */
  ghost predicate Settles(step: (nat, State) -> State) {
    forall r: nat, r': nat, s: State | 1 <= r < r' && SameTable(s, step(r, s)) :: step(r', step(r, s)) == step(r, s)
  }

  lemma SettledStop(step: (nat, State) -> State, rounds: nat)
    requires Settles(step) && rounds >= 1
    ensures SameTable(Iterate(step, StopOf(Run(step), rounds)), Iterate(step, rounds))
  {
    StopFacts(Repeats(Run(step)), 1, rounds);
    var k := StopOf(Run(step), rounds);
    if k < rounds {
      assert Repeated(Run(step), k) && Iterate(step, k) == step(k, Iterate(step, k - 1));
      IterateStill(step, k, rounds);
    }
  }

  lemma SameTierSettles(c: Setup)
    requires Tier(c, 1) == c.loose
    ensures Settles(StepOf(c))
  {
    var step := StepOf(c);
    forall r: nat, r': nat, s: State | 1 <= r < r' && SameTable(s, step(r, s))
      ensures step(r', step(r, s)) == step(r, s)
    {
      RoundRepeats(c, r, r', s);
    }
  }

  lemma StopIsRight(c: Setup, rounds: nat)
    requires Tier(c, 1) == c.loose
    ensures StopsRight(c, rounds)
  {
    SameTierSettles(c);
    if rounds >= 1 { SettledStop(StepOf(c), rounds); }
  }

  /** Records of one site for callee `e`, seen by the loose tier only. */
  function LooseOnly(e: nat): (bool, Table) -> Records {
    (loose: bool, t: Table) => if loose then map[e := [Site(1, Some([Some("char *")]), None)]] else map[]
  }

  lemma {:induction false} Unused(s: set<nat>) returns (e: nat)
    ensures e !in s
    decreases |s|
  {
    if s == {} { e := 0; } else {
      var top := Largest(s);
      e := top + 1;
    }
  }

  lemma {:induction false} Largest(s: set<nat>) returns (top: nat)
    requires s != {}
    ensures top in s && forall x | x in s :: x <= top
    decreases |s|
  {
    top :| top in s;
    if s != {top} {
      var other := Largest(s - {top});
      assert forall x | x in s :: x == top || x in s - {top};
      if other > top { top := other; }
    }
  }

  lemma StrictRoundOne(c: Setup, e: nat)
    requires c.harvest == LooseOnly(e) && c.strictFirst
    ensures Rounds(c, 0).table == map[] == Rounds(c, 1).table && At(Rounds(c, 1).dead, e) == BLANK
  {
    var recs := c.harvest(false, map[]);
    RoundsStep(c, 1);
    DeadAfterAt(c, recs, Memory(c, Rounds(c, 0)), e);
  }

  ghost predicate Unharmed(d: EntryDead) { !d.arity && !d.veto && d.Slots() == {} }

  lemma LooseRound(c: Setup, e: nat, n: nat, s: State)
    requires c.harvest == LooseOnly(e) && Tier(c, n) && e !in c.plt && Unharmed(At(s.dead, e))
    ensures Unharmed(At(Round(c, n, s).dead, e)) && e in Round(c, n, s).table
  {
    var recs := c.harvest(true, s.table);
    DeadAfterAt(c, recs, Memory(c, s), e);
    OneSite(c.name(e), "char *", At(Memory(c, s), e));
    assert e in recs && MergeOf(c, recs, Memory(c, s), e).0.Some?;
  }

  lemma {:induction false} IterateKeeps(step: (nat, State) -> State, inv: State -> bool, r: nat, n: nat)
    requires r <= n && inv(Iterate(step, r))
    requires forall k: nat, s: State | k > r && inv(s) :: inv(step(k, s))
    ensures inv(Iterate(step, n))
    decreases n
  {
    if n > r { IterateKeeps(step, inv, r, n - 1); }
  }

  ghost function UnharmedAt(e: nat): State -> bool {
    (s: State) => Unharmed(At(s.dead, e))
  }

  /** After the first round nothing about the one callee is ever dead. */
  lemma LooseRounds(c: Setup, e: nat, n: nat)
    requires c.harvest == LooseOnly(e) && c.strictFirst && c.loose && e !in c.plt && n >= 1
    ensures UnharmedAt(e)(Rounds(c, n))
  {
    var step := StepOf(c);
    StrictRoundOne(c, e);
    forall k: nat, s: State | k > 1 && UnharmedAt(e)(s) ensures UnharmedAt(e)(step(k, s)) {
      LooseRound(c, e, k, s);
    }
    IterateKeeps(step, UnharmedAt(e), 1, n);
  }

  lemma LooseOnlyIsLawful(c: Setup, e: nat)
    requires c.harvest == LooseOnly(e)
    ensures Lawful(c)
  {
  }

  /** A strict first round before loose ones stops the loop although round two would lock a
      callee. */
  lemma StrictFirstRoundStops(c: Setup, e: nat, rounds: nat)
    requires c.harvest == LooseOnly(e) && c.strictFirst && c.loose && e !in c.plt && rounds >= 2
    ensures Lawful(c) && EarlyStop(c, rounds) == 1 && e !in Rounds(c, 1).table && e in Rounds(c, rounds).table
  {
    LooseOnlyIsLawful(c, e);
    StrictRoundOne(c, e);
    StopStep(Run(StepOf(c)), rounds, 1);
    LooseRounds(c, e, rounds - 1);
    RoundsStep(c, rounds);
    LooseRound(c, e, rounds, Rounds(c, rounds - 1));
  }

  /** For any number of rounds from two on, the early stop is right for every lawful harvest if
      and only if the first round runs under the tier of all others. */
  lemma EarlyStopExactly(c: Setup, rounds: nat)
    requires rounds >= 2
    ensures (forall h: (bool, Table) -> Records | Lawful(With(c, h)) :: StopsRight(With(c, h), rounds))
      <==> !(c.strictFirst && c.loose)
  {
    if c.strictFirst && c.loose {
      var e := Unused(c.plt);
      StrictFirstRoundStops(With(c, LooseOnly(e)), e, rounds);
      assert !StopsRight(With(c, LooseOnly(e)), rounds);
    } else {
      forall h: (bool, Table) -> Records | Lawful(With(c, h)) ensures StopsRight(With(c, h), rounds) {
        StopIsRight(With(c, h), rounds);
      }
    }
  }

  // ---------- The memory is the history ----------

  /** The sites of callee `e` in rounds 1 .. n; none where the harvest has none. */
  ghost function History(c: Setup, n: nat, e: nat): (h: seq<Sites>)
    ensures |h| == n
  {
    if n == 0 then []
    else
      var recs := c.harvest(Tier(c, n), Rounds(c, n - 1).table);
      History(c, n - 1, e) + [if e in recs then recs[e] else []]
  }

  lemma NoSitesNoChange(name: string, d: EntryDead)
    ensures MergedAt(name, [], d).1 == d
  {
    assert Considered([]) == [] && Arities([]) == {};
  }

  /** With the sticky memory the loop remembers about an admitted callee what merging its own
      history remembers. */
  lemma {:induction false} MemoryIsHistory(c: Setup, n: nat, e: nat)
    requires c.sticky && Admitted(c, e)
    ensures At(Rounds(c, n).dead, e) == Remember(c.name(e), History(c, n, e))
    decreases n
  {
    if n > 0 {
      MemoryIsHistory(c, n - 1, e);
      var s := Rounds(c, n - 1);
      var recs := c.harvest(Tier(c, n), s.table);
      RoundsStep(c, n);
      DeadAfterAt(c, recs, s.dead, e);
      NoSitesNoChange(c.name(e), At(s.dead, e));
      assert History(c, n, e)[..n - 1] == History(c, n - 1, e);
    }
  }

  // ---------- Dead evidence stays dead ----------

  ghost function Locked(t: Table, e: nat): Option<Proto> {
    if e in t then Some(t[e]) else None
  }

  lemma RoundRespects(c: Setup, r: nat, s: State, e: nat)
    ensures DeadLe(At(Memory(c, s), e), At(Round(c, r, s).dead, e))
    ensures Respects(Locked(Round(c, r, s).table, e), At(Round(c, r, s).dead, e))
  {
    var recs := c.harvest(Tier(c, r), s.table);
    DeadAfterAt(c, recs, Memory(c, s), e);
    if e in recs && Admitted(c, e) { MergeSticky(c.name(e), recs[e], At(Memory(c, s), e)); }
  }

  lemma RespectsOlder(p: Option<Proto>, a: EntryDead, b: EntryDead)
    requires DeadLe(a, b) && Respects(p, b)
    ensures Respects(p, a)
  {
  }

  /** `step` only ever adds to the memory about `e`, and never locks what is dead. */
  ghost predicate StepRespects(step: (nat, State) -> State, e: nat) {
    forall r: nat, s: State ::
      && DeadLe(At(s.dead, e), At(step(r, s).dead, e))
      && Respects(Locked(step(r, s).table, e), At(step(r, s).dead, e))
  }

  lemma {:induction false} IterateRespects(step: (nat, State) -> State, j: nat, n: nat, e: nat)
    requires StepRespects(step, e) && j <= n
    ensures DeadLe(At(Iterate(step, j).dead, e), At(Iterate(step, n).dead, e))
    ensures Respects(Locked(Iterate(step, n).table, e), At(Iterate(step, n).dead, e))
    decreases n
  {
    if n > 0 && j < n { IterateRespects(step, j, n - 1, e); }
  }

  /** With the sticky memory, a slot, return, arity or veto marked dead after round `j` is
      still dead after every later round, and no later table locks it. */
  lemma DeadForever(c: Setup, j: nat, n: nat, e: nat)
    requires c.sticky && j <= n
    ensures DeadLe(At(Rounds(c, j).dead, e), At(Rounds(c, n).dead, e))
    ensures Respects(Locked(Rounds(c, n).table, e), At(Rounds(c, j).dead, e))
  {
    var step := StepOf(c);
    forall r: nat, s: State
      ensures DeadLe(At(s.dead, e), At(step(r, s).dead, e))
      ensures Respects(Locked(step(r, s).table, e), At(step(r, s).dead, e))
    {
      RoundRespects(c, r, s, e);
    }
    IterateRespects(step, j, n, e);
    RespectsOlder(Locked(Iterate(step, n).table, e), At(Iterate(step, j).dead, e), At(Iterate(step, n).dead, e));
  }
}
