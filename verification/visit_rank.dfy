/**
 * The flow-order rank of instruction addresses (examples/httpd_decompile.rs:686-723) and the
 * creation times minted from it (src/funcdata.rs:8903-8954).
 *
 * The walk is a list of (creation time, address) pairs and the lift a list of ops with optional
 * sequence numbers.  The rank map ties the one to the other: an instruction's place in the order
 * the walk last touched it decides the creation times its lifted ops are given.
 */
module VisitRank {
  import opened Common
  import opened Pcode
  import opened Sorting

  /** One op of the scratch walk: creation time and instruction address. */
  type Visit = (nat, nat)

  predicate NotLater(x: Visit, y: Visit) { x.0 < y.0 || (x.0 == y.0 && x.1 <= y.1) }

  /** The addresses of the walk's ops in creation order. */
  function Walked(timed: seq<Visit>): seq<nat> {
    var sorted := SortBy(timed, NotLater);
    seq(|sorted|, i requires 0 <= i < |sorted| => sorted[i].1)
  }

  /** Runs of the same address collapsed to one. */
  function Collapse(addrs: seq<nat>): seq<nat> {
    if addrs == [] then []
    else
      var before, last := Collapse(addrs[..|addrs| - 1]), addrs[|addrs| - 1];
      if before != [] && before[|before| - 1] == last then before else before + [last]
  }

  /** Where `a` occurs last. */
  function LastIndex(s: seq<nat>, a: nat): (i: nat)
    requires a in s
    ensures i < |s| && s[i] == a && a !in s[i + 1..]
  {
    if s[|s| - 1] == a then |s| - 1
    else
      assert a in s[..|s| - 1];
      var i := LastIndex(s[..|s| - 1], a);
      assert s[i + 1..] == s[..|s| - 1][i + 1..] + [s[|s| - 1]];
      i
  }

  /** Sequenced addresses of the lifted list outside `visited`, each at its first appearance. */
  function Unvisited(visited: set<nat>, raw: seq<Op>): seq<nat> {
    if raw == [] then []
    else
      var before, last := Unvisited(visited, raw[..|raw| - 1]), raw[|raw| - 1];
      if last.seqnum.Some? && last.seqnum.value.addr !in visited && last.seqnum.value.addr !in before
      then before + [last.seqnum.value.addr] else before
  }

  function Members(s: seq<nat>): set<nat> { set a | a in s }

  /** Visited addresses rank by their last position, the others follow in list order. */
  ghost predicate IsRank(visit: seq<nat>, raw: seq<Op>, rank: map<nat, nat>) {
    var tail := Unvisited(Members(visit), raw);
    && (forall a :: a in rank <==> a in visit || a in tail)
    && (forall a | a in visit :: rank[a] == LastIndex(visit, a))
    && (forall k | 0 <= k < |tail| :: rank[tail[k]] == |visit| + k)
  }

  /** The rank map. */
  method FlowVisitUniqMap(timed: seq<Visit>, raw: seq<Op>) returns (rank: map<nat, nat>)
    ensures IsRank(Collapse(Walked(timed)), raw, rank)
  {
    var visit := CollapseWalk(timed);
    rank := RankVisited(visit);
    rank := RankTheRest(visit, raw, rank);
  }

  method CollapseWalk(timed: seq<Visit>) returns (visit: seq<nat>)
    ensures visit == Collapse(Walked(timed))
  {
    var sorted := SortBy(timed, NotLater);
    visit := [];
    for i := 0 to |sorted|
      invariant visit == Collapse(Walked(timed)[..i])
    {
      assert Walked(timed)[..i + 1][..i] == Walked(timed)[..i];
      if visit == [] || visit[|visit| - 1] != sorted[i].1 { visit := visit + [sorted[i].1]; }
    }
    assert Walked(timed)[..|sorted|] == Walked(timed);
  }

  method RankVisited(visit: seq<nat>) returns (rank: map<nat, nat>)
    ensures forall a :: a in rank <==> a in visit
    ensures forall a | a in visit :: rank[a] == LastIndex(visit, a)
  {
    rank := map[];
    for i := 0 to |visit|
      invariant forall a :: a in rank <==> a in visit[..i]
      invariant forall a | a in visit[..i] :: rank[a] == LastIndex(visit[..i], a)
    {
      assert visit[..i + 1][..i] == visit[..i] && visit[..i + 1] == visit[..i] + [visit[i]];
      rank := rank[visit[i] := i];
    }
    assert visit[..|visit|] == visit;
  }

  method RankTheRest(visit: seq<nat>, raw: seq<Op>, visited: map<nat, nat>) returns (rank: map<nat, nat>)
    requires forall a :: a in visited <==> a in visit
    requires forall a | a in visit :: visited[a] == LastIndex(visit, a)
    ensures IsRank(visit, raw, rank)
  {
    rank := visited;
    var tail, lastInstr: Option<nat> := |visit|, None;
    for i := 0 to |raw|
      invariant IsRank(visit, raw[..i], rank) && tail == |visit| + |Unvisited(Members(visit), raw[..i])|
      invariant lastInstr.Some? ==> lastInstr.value in rank
    {
      assert raw[..i + 1][..i] == raw[..i];
      if raw[i].seqnum.None? { continue; }
      var a := raw[i].seqnum.value.addr;
      if Some(a) == lastInstr { continue; }
      lastInstr := Some(a);
      if a !in rank {
        rank := rank[a := tail];
        tail := tail + 1;
      }
    }
    assert raw[..|raw|] == raw;
  }

  // ---------- What the rank promises ----------

  lemma {:induction false} UnvisitedFacts(visited: set<nat>, raw: seq<Op>)
    ensures Distinct(Unvisited(visited, raw))
    ensures forall a :: a in Unvisited(visited, raw) <==>
      a !in visited && exists op | op in raw :: op.seqnum.Some? && op.seqnum.value.addr == a
    decreases |raw|
  {
    if raw != [] {
      var n := |raw| - 1;
      UnvisitedFacts(visited, raw[..n]);
      assert raw == raw[..n] + [raw[n]];
    }
  }

  ghost predicate OneToOne(rank: map<nat, nat>) {
    forall a, b | a in rank && b in rank && a != b :: rank[a] != rank[b]
  }

  /** Every sequenced instruction of the lifted list and every visited one has a rank, and no
      two have the same. */
  lemma RankIsTotalAndInjective(visit: seq<nat>, raw: seq<Op>, rank: map<nat, nat>)
    requires IsRank(visit, raw, rank)
    ensures forall a :: a in rank <==> a in visit || exists op | op in raw :: op.seqnum.Some? && op.seqnum.value.addr == a
    ensures OneToOne(rank)
  {
    UnvisitedFacts(Members(visit), raw);
    var tail := Unvisited(Members(visit), raw);
    forall a, b | a in rank && b in rank && a != b ensures rank[a] != rank[b] {
      if a in tail { var k :| 0 <= k < |tail| && tail[k] == a; }
      if b in tail { var l :| 0 <= l < |tail| && tail[l] == b; }
    }
  }

  /** The list position where an address first appears. */
  ghost predicate FirstAt(raw: seq<Op>, a: nat, i: nat) {
    && i < |raw| && raw[i].seqnum.Some? && raw[i].seqnum.value.addr == a
    && forall j | 0 <= j < i && raw[j].seqnum.Some? :: raw[j].seqnum.value.addr != a
  }

  lemma {:induction false} TailInListOrder(visited: set<nat>, raw: seq<Op>, k: nat, l: nat, i: nat, j: nat)
    requires k < l < |Unvisited(visited, raw)|
    requires FirstAt(raw, Unvisited(visited, raw)[k], i) && FirstAt(raw, Unvisited(visited, raw)[l], j)
    ensures i < j
    decreases |raw|
  {
    var n := |raw| - 1;
    var before := Unvisited(visited, raw[..n]);
    UnvisitedFacts(visited, raw[..n]);
    if l < |before| {
      var op :| op in raw[..n] && op.seqnum.Some? && op.seqnum.value.addr == before[l];
      var oq :| oq in raw[..n] && oq.seqnum.Some? && oq.seqnum.value.addr == before[k];
      assert FirstAt(raw[..n], before[k], i) && FirstAt(raw[..n], before[l], j) by {
        FirstInPrefix(raw, before[k], i, n);
        FirstInPrefix(raw, before[l], j, n);
      }
      TailInListOrder(visited, raw[..n], k, l, i, j);
    } else {
      assert before[k] in before;
      FirstInPrefix(raw, before[k], i, n);
    }
  }

  /** An address that occurs in a prefix first appears there. */
  lemma FirstInPrefix(raw: seq<Op>, a: nat, i: nat, n: nat)
    requires FirstAt(raw, a, i) && n <= |raw|
    requires exists op | op in raw[..n] :: op.seqnum.Some? && op.seqnum.value.addr == a
    ensures i < n && FirstAt(raw[..n], a, i)
  {
    var op :| op in raw[..n] && op.seqnum.Some? && op.seqnum.value.addr == a;
    var m :| 0 <= m < n && raw[..n][m] == op;
    assert raw[m] == op;
  }

  /** Collapsing runs keeps who comes last. */
  lemma {:induction false} CollapseKeepsOrder(addrs: seq<nat>, a: nat, b: nat)
    requires a in addrs && b in addrs
    ensures a in Collapse(addrs) && b in Collapse(addrs)
    ensures LastIndex(Collapse(addrs), a) < LastIndex(Collapse(addrs), b) <==> LastIndex(addrs, a) < LastIndex(addrs, b)
    decreases |addrs|
  {
    var n := |addrs| - 1;
    var before, last := addrs[..n], addrs[n];
    assert addrs == before + [last];
    CollapseEnds(addrs);
    if a != last && b != last {
      CollapseKeepsOrder(before, a, b);
    } else if a != last {
      CollapseKeepsOrder(before, a, a);
    } else if b != last {
      CollapseKeepsOrder(before, b, b);
    }
  }

  lemma {:induction false} CollapseEnds(addrs: seq<nat>)
    requires addrs != []
    ensures Collapse(addrs) != [] && Collapse(addrs)[|Collapse(addrs)| - 1] == addrs[|addrs| - 1]
  {
  }

  lemma {:induction false} CollapseMembers(addrs: seq<nat>)
    ensures forall a :: a in Collapse(addrs) <==> a in addrs
  {
    if addrs != [] {
      CollapseMembers(addrs[..|addrs| - 1]);
      assert addrs == addrs[..|addrs| - 1] + [addrs[|addrs| - 1]];
    }
  }

  /** Two visited instructions rank in the order of the last op the walk created for them. */
  lemma RankOrder(walk: seq<nat>, raw: seq<Op>, rank: map<nat, nat>, a: nat, b: nat)
    requires IsRank(Collapse(walk), raw, rank) && a in walk && b in walk
    ensures a in rank && b in rank && (rank[a] < rank[b] <==> LastIndex(walk, a) < LastIndex(walk, b))
  {
    CollapseKeepsOrder(walk, a, b);
  }

  /** Any unvisited instruction ranks after every visited one, and unvisited ones rank in the
      order they first appear in the lifted list. */
  lemma TailOrder(walk: seq<nat>, raw: seq<Op>, rank: map<nat, nat>, a: nat, b: nat)
    requires IsRank(Collapse(walk), raw, rank) && b in rank && b !in walk
    ensures a in walk ==> a in rank && rank[a] < rank[b]
    ensures forall i, j | a in rank && a !in walk && FirstAt(raw, a, i) && FirstAt(raw, b, j) :: rank[a] < rank[b] <==> i < j
  {
    CollapseMembers(walk);
    var visited := Members(Collapse(walk));
    var tail := Unvisited(visited, raw);
    var l :| 0 <= l < |tail| && tail[l] == b;
    if a in rank && a !in walk {
      var k :| 0 <= k < |tail| && tail[k] == a;
      forall i, j | FirstAt(raw, a, i) && FirstAt(raw, b, j) ensures rank[a] < rank[b] <==> i < j {
        if k < l { TailInListOrder(visited, raw, k, l, i, j); }
        if l < k { TailInListOrder(visited, raw, l, k, j, i); }
      }
    }
  }

  /** `t` is the time of the last op created at address `a`. */
  ghost predicate Latest(timed: seq<Visit>, a: nat, t: nat) {
    (t, a) in timed && forall v | v in timed && v.1 == a :: v.0 <= t
  }

  lemma WalkedByTime(timed: seq<Visit>)
    ensures |Walked(timed)| == |timed| && SortedBy(SortBy(timed, NotLater), NotLater)
    ensures forall v :: v in SortBy(timed, NotLater) <==> v in timed
  {
    SortBySorted(timed, NotLater);
    SameMembers(SortBy(timed, NotLater), timed);
  }

  /** The last position of an address in the walk holds the last op created there. */
  lemma LastIsLatest(timed: seq<Visit>, a: nat, t: nat)
    requires Latest(timed, a, t)
    ensures a in Walked(timed) && SortBy(timed, NotLater)[LastIndex(Walked(timed), a)] == (t, a)
  {
    WalkedByTime(timed);
    var sorted, walk := SortBy(timed, NotLater), Walked(timed);
    var k :| 0 <= k < |sorted| && sorted[k] == (t, a);
    assert walk[k] == a;
    var last := LastIndex(walk, a);
    assert sorted[last] in sorted && sorted[last].1 == a;
    forall j | last < j < |walk| ensures walk[j] != a { assert walk[last + 1..][j - last - 1] == walk[j]; }
    if k < last { assert NotLater(sorted[k], sorted[last]); }
  }

  lemma LastByTime(timed: seq<Visit>, a: nat, t: nat, b: nat, u: nat)
    requires Latest(timed, a, t) && Latest(timed, b, u)
    ensures a in Walked(timed) && b in Walked(timed)
    ensures LastIndex(Walked(timed), a) < LastIndex(Walked(timed), b) <==> t < u || (t == u && a < b)
  {
    LastIsLatest(timed, a, t);
    LastIsLatest(timed, b, u);
    WalkedByTime(timed);
    var sorted := SortBy(timed, NotLater);
    var i, j := LastIndex(Walked(timed), a), LastIndex(Walked(timed), b);
    if i < j { assert NotLater(sorted[i], sorted[j]); }
    if j < i { assert NotLater(sorted[j], sorted[i]); }
  }

  /** Two visited instructions rank by the creation time of the last op the walk made for them,
      and by address where those times are equal. */
  lemma RankByTime(timed: seq<Visit>, raw: seq<Op>, rank: map<nat, nat>, a: nat, t: nat, b: nat, u: nat)
    requires IsRank(Collapse(Walked(timed)), raw, rank) && Latest(timed, a, t) && Latest(timed, b, u)
    ensures a in rank && b in rank && (rank[a] < rank[b] <==> t < u || (t == u && a < b))
  {
    LastByTime(timed, a, t, b, u);
    RankOrder(Walked(timed), raw, rank, a, b);
  }

  // ---------- The creation times minted at injection ----------

  const STRIDE: nat := 4096
  const U32_MAX: nat := 0xFFFF_FFFF
  const U64_MAX: nat := 0xFFFF_FFFF_FFFF_FFFF

  /** The ops whose opcode converts; the others are skipped before anything is counted. */
  function Known(raw: seq<Op>, converts: int -> bool): seq<Op> {
    if raw == [] then []
    else
      var before, last := Known(raw[..|raw| - 1], converts), raw[|raw| - 1];
      if converts(last.opcode) then before + [last] else before
  }

  function AddrAt(raw: seq<Op>, i: nat): Option<nat>
    requires i < |raw|
  {
    if raw[i].seqnum.Some? then Some(raw[i].seqnum.value.addr) else None
  }

  /** The place of op `i` in its run of equal addresses; before the list the address is absent. */
  function Ordinal(raw: seq<Op>, i: nat): nat
    requires i < |raw|
  {
    if i == 0 then (if AddrAt(raw, 0).None? then 1 else 0)
    else if AddrAt(raw, i) == AddrAt(raw, i - 1) then Ordinal(raw, i - 1) + 1 else 0
  }

  function Times4096(n: nat): nat { if n * STRIDE > U32_MAX then U32_MAX else n * STRIDE }

  /** Where the times of op `i`'s instruction begin; an op without sequence number is looked
      up under the largest address. */
  function Base(raw: seq<Op>, rank: map<nat, nat>, i: nat): nat
    requires i < |raw|
  {
    var key := if AddrAt(raw, i).Some? then AddrAt(raw, i).value else U64_MAX;
    if key in rank then Times4096(rank[key]) else 0
  }

  function Uniq(raw: seq<Op>, rank: map<nat, nat>, i: nat): nat
    requires i < |raw|
  {
    Base(raw, rank, i) + Ordinal(raw, i)
  }

  /** The tracker of the loop before op `n`: the address last seen and its ordinal. */
  ghost predicate Counts(ops: seq<Op>, n: nat, addr: Option<nat>, ordinal: nat) {
    n <= |ops| && if n == 0 then addr == None && ordinal == 0 else addr == AddrAt(ops, n - 1) && ordinal == Ordinal(ops, n - 1)
  }

  lemma CountNext(ops: seq<Op>, n: nat, addr: Option<nat>, ordinal: nat)
    requires n < |ops| && Counts(ops, n, addr, ordinal)
    ensures Counts(ops, n + 1, AddrAt(ops, n), if AddrAt(ops, n) != addr then 0 else ordinal + 1)
  {
  }

  /** The loop that mints one creation time per op; None stands for the overflow panic. */
  method MintUniqs(raw: seq<Op>, converts: int -> bool, rank: map<nat, nat>) returns (uniqs: Option<seq<nat>>)
    ensures var ops := Known(raw, converts);
      if uniqs.Some? then |uniqs.value| == |ops| && forall i | 0 <= i < |ops| :: uniqs.value[i] == Uniq(ops, rank, i) <= U32_MAX
      else exists i | 0 <= i < |ops| :: Uniq(ops, rank, i) > U32_MAX
  {
    var times: seq<nat> := [];
    var currentAddr: Option<nat>, ordinal: nat := None, 0;
    ghost var ops := Known(raw, converts);
    for i := 0 to |raw|
      invariant |times| == |Known(raw[..i], converts)| && Known(raw[..i], converts) <= ops
      invariant forall k | 0 <= k < |times| :: times[k] == Uniq(ops, rank, k) <= U32_MAX
      invariant Counts(ops, |times|, currentAddr, ordinal)
    {
      KnownGrows(raw, converts, i);
      if !converts(raw[i].opcode) { continue; }
      assert ops[|times|] == raw[i];
      CountNext(ops, |times|, currentAddr, ordinal);
      var addr := AddrAt(raw, i);
      if addr != currentAddr {
        currentAddr, ordinal := addr, 0;
      } else {
        ordinal := ordinal + 1;
      }
      var key := if addr.Some? then addr.value else U64_MAX;
      var uniq := if key in rank then Times4096(rank[key]) + ordinal else ordinal;
      assert uniq == Uniq(ops, rank, |times|);
      if uniq > U32_MAX { return None; }
      times := times + [uniq];
    }
    assert raw[..|raw|] == raw;
    uniqs := Some(times);
  }

  lemma {:induction false} KnownGrows(raw: seq<Op>, converts: int -> bool, i: nat)
    requires i < |raw|
    ensures Known(raw[..i + 1], converts) == Known(raw[..i], converts) + (if converts(raw[i].opcode) then [raw[i]] else [])
    ensures Known(raw[..i + 1], converts) <= Known(raw, converts)
    decreases |raw|
  {
    assert raw[..i + 1][..i] == raw[..i];
    if i + 1 < |raw| {
      var init := raw[..|raw| - 1];
      KnownGrows(init, converts, i);
      assert init[..i + 1] == raw[..i + 1];
    } else {
      assert raw[..i + 1] == raw;
    }
  }

  /** The list does not open with an op without sequence number, whose run would count from 1. */
  ghost predicate HeadSequenced(raw: seq<Op>) {
    raw != [] ==> AddrAt(raw, 0).Some?
  }

  /** No instruction has more ops than there are times up to the first one of any instruction
      that does not start below it. */
  ghost predicate Roomy(raw: seq<Op>, rank: map<nat, nat>) {
    forall i, j | 0 <= i < |raw| && 0 <= j < |raw| && AddrAt(raw, i) != AddrAt(raw, j) && Base(raw, rank, i) <= Base(raw, rank, j) ::
      Uniq(raw, rank, i) < Base(raw, rank, j)
  }

  /** Every op has a sequence number, and the rank covers its instruction. */
  ghost predicate Covered(raw: seq<Op>, rank: map<nat, nat>) {
    forall i | 0 <= i < |raw| :: AddrAt(raw, i).Some? && AddrAt(raw, i).value in rank
  }

  ghost function RankAt(raw: seq<Op>, rank: map<nat, nat>, i: nat): nat
    requires Covered(raw, rank) && i < |raw|
  {
    rank[AddrAt(raw, i).value]
  }

  /** At most 4096 ops to an instruction and ranks below 2^20 leave room, and then times order
      ops of different instructions by rank. */
  lemma StrideIsRoomy(raw: seq<Op>, rank: map<nat, nat>)
    requires Covered(raw, rank) && OneToOne(rank)
    requires forall i | 0 <= i < |raw| :: Ordinal(raw, i) < STRIDE && RankAt(raw, rank, i) < 0x10_0000
    ensures Roomy(raw, rank)
    ensures forall i, j | 0 <= i < |raw| && 0 <= j < |raw| && RankAt(raw, rank, i) < RankAt(raw, rank, j) ::
      Uniq(raw, rank, i) < Uniq(raw, rank, j)
  {
    forall i, j | 0 <= i < |raw| && 0 <= j < |raw| && AddrAt(raw, i) != AddrAt(raw, j) && Base(raw, rank, i) <= Base(raw, rank, j)
      ensures Uniq(raw, rank, i) < Base(raw, rank, j)
    {
      assert RankAt(raw, rank, i) != RankAt(raw, rank, j);
    }
  }

  /** No address comes back after another one. */
  ghost predicate Grouped(raw: seq<Op>) {
    forall i, k, j | 0 <= i < k < j < |raw| && AddrAt(raw, i) == AddrAt(raw, j) :: AddrAt(raw, k) == AddrAt(raw, i)
  }

  lemma {:induction false} OrdinalWithin(raw: seq<Op>, i: nat, j: nat)
    requires i < j < |raw| && forall k | i <= k <= j :: AddrAt(raw, k) == AddrAt(raw, i)
    ensures Ordinal(raw, j) == Ordinal(raw, i) + (j - i)
    decreases j
  {
    assert AddrAt(raw, j) == AddrAt(raw, i) && AddrAt(raw, j - 1) == AddrAt(raw, i);
    if i < j - 1 { OrdinalWithin(raw, i, j - 1); }
  }

  predicate OneRun(raw: seq<Op>, i: nat, j: nat) {
    i <= j < |raw| && forall k | i <= k <= j :: AddrAt(raw, k) == AddrAt(raw, i)
  }

  /** Times order the ops of one run by list order. */
  lemma MintedByOrdinal(raw: seq<Op>, rank: map<nat, nat>, i: nat, j: nat)
    requires i < j && OneRun(raw, i, j)
    ensures Uniq(raw, rank, i) < Uniq(raw, rank, j)
  {
    OrdinalWithin(raw, i, j);
    assert AddrAt(raw, j) == AddrAt(raw, i);
  }

  ghost predicate TimesDiffer(raw: seq<Op>, rank: map<nat, nat>) {
    forall i, j | 0 <= i < j < |raw| :: Uniq(raw, rank, i) != Uniq(raw, rank, j)
  }

  /** Every op gets a creation time of its own exactly when each instruction's ops are
      contiguous in the list and none has more ops than it has room for. */
  lemma MintedDistinctly(raw: seq<Op>, rank: map<nat, nat>)
    requires HeadSequenced(raw)
    ensures TimesDiffer(raw, rank) <==> Grouped(raw) && Roomy(raw, rank)
  {
    if !Grouped(raw) {
      UngroupedRepeat(raw, rank);
    } else if !Roomy(raw, rank) {
      SpillRepeats(raw, rank);
    } else {
      GroupedDiffer(raw, rank);
    }
  }

  lemma GroupedDiffer(raw: seq<Op>, rank: map<nat, nat>)
    requires Roomy(raw, rank) && Grouped(raw)
    ensures TimesDiffer(raw, rank)
  {
    forall i, j | 0 <= i < j < |raw| ensures Uniq(raw, rank, i) != Uniq(raw, rank, j) {
      if AddrAt(raw, i) == AddrAt(raw, j) {
        assert OneRun(raw, i, j);
        MintedByOrdinal(raw, rank, i, j);
      } else {
        assert Base(raw, rank, i) <= Base(raw, rank, j) || Base(raw, rank, j) <= Base(raw, rank, i);
      }
    }
  }

  lemma UngroupedRepeat(raw: seq<Op>, rank: map<nat, nat>)
    requires HeadSequenced(raw) && !Grouped(raw)
    ensures !TimesDiffer(raw, rank)
  {
    var i, k, j :| 0 <= i < k < j < |raw| && AddrAt(raw, i) == AddrAt(raw, j) && AddrAt(raw, k) != AddrAt(raw, i);
    var m, n := SameTime(raw, rank, i, k, j);
  }

  /** An instruction with too many ops reaches the first time of a later one. */
  lemma SpillRepeats(raw: seq<Op>, rank: map<nat, nat>)
    requires HeadSequenced(raw) && !Roomy(raw, rank)
    ensures !TimesDiffer(raw, rank)
  {
    var i, j :| 0 <= i < |raw| && 0 <= j < |raw| && AddrAt(raw, i) != AddrAt(raw, j)
      && Base(raw, rank, i) <= Base(raw, rank, j) && Uniq(raw, rank, i) >= Base(raw, rank, j);
    var m := RunAt(raw, i, Base(raw, rank, j) - Base(raw, rank, i));
    var n := RunStart(raw, j);
    assert Uniq(raw, rank, m) == Uniq(raw, rank, n);
    assert AddrAt(raw, m) != AddrAt(raw, n);
  }

  /** The op with ordinal `o` in the run of op `i`. */
  lemma {:induction false} RunAt(raw: seq<Op>, i: nat, o: nat) returns (m: nat)
    requires HeadSequenced(raw) && i < |raw| && o <= Ordinal(raw, i)
    ensures m <= i && AddrAt(raw, m) == AddrAt(raw, i) && Ordinal(raw, m) == o
  {
    if o == Ordinal(raw, i) { m := i; } else { m := RunAt(raw, i - 1, o); }
  }

  /** An address that comes back repeats a creation time. */
  lemma SameTime(raw: seq<Op>, rank: map<nat, nat>, i: nat, k: nat, j: nat) returns (m: nat, n: nat)
    requires HeadSequenced(raw) && i < k < j < |raw|
    requires AddrAt(raw, i) == AddrAt(raw, j) && AddrAt(raw, k) != AddrAt(raw, i)
    ensures m < n < |raw| && Uniq(raw, rank, m) == Uniq(raw, rank, n)
  {
    m := RunStart(raw, i);
    n := ReturnPoint(raw, k, j);
  }

  /** The op that opens the run of op `i`. */
  lemma {:induction false} RunStart(raw: seq<Op>, i: nat) returns (m: nat)
    requires HeadSequenced(raw) && i < |raw|
    ensures m <= i && AddrAt(raw, m) == AddrAt(raw, i) && Ordinal(raw, m) == 0
  {
    if i > 0 && AddrAt(raw, i - 1) == AddrAt(raw, i) { m := RunStart(raw, i - 1); } else { m := i; }
  }

  /** Past `k` the address of `j` comes back with a new run. */
  lemma {:induction false} ReturnPoint(raw: seq<Op>, k: nat, j: nat) returns (n: nat)
    requires k < j < |raw| && AddrAt(raw, k) != AddrAt(raw, j)
    ensures k < n <= j && AddrAt(raw, n) == AddrAt(raw, j) && Ordinal(raw, n) == 0
    decreases j
  {
    if AddrAt(raw, j - 1) == AddrAt(raw, j) { n := ReturnPoint(raw, k, j - 1); } else { n := j; }
  }
}
