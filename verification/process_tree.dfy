/**
 * The process-tree walk of the child supervisor (examples/gen_decompile.rs:1292-1344) on one
 * /proc snapshot of (ppid, pid) edges.  A process appears once in a snapshot; nothing else is
 * asked of the table, which may hold cycles that the walk never enters.
 *
 * The walk is depth first; its result is read backwards, so that children are signalled before
 * their parents.
 */
module ProcessTree {
  import opened Common

  type Edge = (nat, nat)

  ghost predicate Snapshot(table: seq<Edge>) {
    forall i, j | 0 <= i < j < |table| :: table[i].1 != table[j].1
  }

  /** `pid` is a child of `ppid`; the root is never counted as anybody's child. */
  predicate Child(table: seq<Edge>, root: nat, ppid: nat, pid: nat) {
    (ppid, pid) in table && pid != root
  }

  /** `pid` is reached from `top` over `n` child edges. */
  ghost predicate Below(table: seq<Edge>, root: nat, top: nat, pid: nat, n: nat)
    decreases n
  {
    if n == 0 then pid == top
    else exists q :: Below(table, root, top, q, n - 1) && Child(table, root, q, pid)
  }

  ghost predicate Descendant(table: seq<Edge>, root: nat, top: nat, pid: nat) {
    exists n: nat :: n > 0 && Below(table, root, top, pid, n)
  }

  ghost function Pids(table: seq<Edge>): set<nat> {
    set e | e in table :: e.1
  }

  /** State of the walk: `done` have had their children listed, `frontier` still wait. */
  ghost predicate Walking(table: seq<Edge>, root: nat, found: seq<nat>, frontier: seq<nat>, done: set<nat>) {
    Waiting(root, found, frontier, done) && Discovered(table, root, found, done)
  }

  /** What was found, and the root, either waits or is done. */
  ghost predicate Waiting(root: nat, found: seq<nat>, frontier: seq<nat>, done: set<nat>) {
    && Distinct(found) && root !in found && Distinct(frontier)
    && (forall p | p in frontier :: p !in done)
    && (forall p :: p in frontier || p in done <==> p in found || p == root)
  }

  /** Only descendants are found, each after its parent, and all children of what is done. */
  ghost predicate Discovered(table: seq<Edge>, root: nat, found: seq<nat>, done: set<nat>) {
    && (forall p | p in found :: Descendant(table, root, root, p))
    && (forall i | 0 <= i < |found| :: ParentEarlier(table, root, found, done, i))
    && (forall q, p | q in done && Child(table, root, q, p) :: p in found)
  }

  /** The parent of `found[i]` has been processed, and it is the root or was found before. */
  ghost predicate ParentEarlier(table: seq<Edge>, root: nat, found: seq<nat>, done: set<nat>, i: nat)
    requires i < |found|
  {
    exists q :: q in done && Child(table, root, q, found[i]) && (q == root || q in found[..i])
  }

  lemma OneParent(table: seq<Edge>, root: nat, p: nat, q: nat, pid: nat)
    requires Snapshot(table) && Child(table, root, p, pid) && Child(table, root, q, pid)
    ensures p == q
  {
    var i :| 0 <= i < |table| && table[i] == (p, pid);
    var j :| 0 <= j < |table| && table[j] == (q, pid);
    assert i == j;
  }

  lemma ChildDescends(table: seq<Edge>, root: nat, q: nat, p: nat)
    requires q == root || Descendant(table, root, root, q)
    requires Child(table, root, q, p)
    ensures Descendant(table, root, root, p)
  {
    var n: nat := 0;
    if q != root { n :| n > 0 && Below(table, root, root, q, n); }
    assert Below(table, root, root, q, n);
    assert Below(table, root, root, p, n + 1);
  }

  /** The children of one process, appended to the find list and pushed on the frontier. */
  method ListChildren(table: seq<Edge>, root: nat, current: nat, found: seq<nat>, frontier: seq<nat>)
    returns (found': seq<nat>, frontier': seq<nat>, ghost kids: seq<nat>)
    requires Snapshot(table)
    ensures found' == found + kids && frontier' == frontier + kids && Distinct(kids)
    ensures forall p :: p in kids <==> Child(table, root, current, p)
  {
    found', frontier', kids := found, frontier, [];
    for k := 0 to |table|
      invariant found' == found + kids && frontier' == frontier + kids && Distinct(kids)
      invariant forall p :: p in kids <==> (current, p) in table[..k] && p != root
    {
      assert table[..k + 1] == table[..k] + [table[k]];
      var (ppid, pid) := table[k];
      if ppid == current && pid != root {
        assert forall j | 0 <= j < k :: table[..k][j] == table[j];
        assert (current, pid) !in table[..k];
        found', frontier', kids := found' + [pid], frontier' + [pid], kids + [pid];
      }
    }
    assert table[..|table|] == table;
  }

  lemma WalkStarts(table: seq<Edge>, root: nat)
    ensures Walking(table, root, [], [root], {})
  {
  }

  lemma NotFoundYet(table: seq<Edge>, root: nat, found: seq<nat>, done: set<nat>, current: nat, p: nat)
    requires Snapshot(table) && current !in done && Child(table, root, current, p)
    requires forall i | 0 <= i < |found| :: ParentEarlier(table, root, found, done, i)
    ensures p !in found
  {
    forall i | 0 <= i < |found| ensures found[i] != p {
      assert ParentEarlier(table, root, found, done, i);
      var q :| q in done && Child(table, root, q, found[i]) && (q == root || q in found[..i]);
      if Child(table, root, current, found[i]) { OneParent(table, root, q, current, found[i]); }
    }
  }

  /** Processing the top of the frontier keeps the walk's state, and the walk comes closer to
      its end. */
  lemma WalkOn(table: seq<Edge>, root: nat, found: seq<nat>, frontier: seq<nat>, rest: seq<nat>, current: nat, done: set<nat>, kids: seq<nat>)
    requires Snapshot(table) && Walking(table, root, found, frontier, done) && frontier == rest + [current]
    requires Distinct(kids) && forall p :: p in kids <==> Child(table, root, current, p)
    ensures Walking(table, root, found + kids, rest + kids, done + {current})
    ensures |done| < |done + {current}| <= |Pids(table) + {root}|
  {
    WalkOne(table, root, found, rest, current, done, kids);
    SubsetSize(done + {current}, Pids(table) + {root});
  }

  lemma WalkOne(table: seq<Edge>, root: nat, found: seq<nat>, rest: seq<nat>, current: nat, done: set<nat>, kids: seq<nat>)
    requires Snapshot(table) && Walking(table, root, found, rest + [current], done)
    requires Distinct(kids) && forall p :: p in kids <==> Child(table, root, current, p)
    ensures Walking(table, root, found + kids, rest + kids, done + {current})
    ensures current !in done && done + {current} <= Pids(table) + {root}
  {
    assert (rest + [current])[|rest|] == current;
    forall p | p in kids ensures p !in found && Descendant(table, root, root, p) {
      NotFoundYet(table, root, found, done, current, p);
      ChildDescends(table, root, current, p);
    }
    WaitingOn(root, found, rest, current, done, kids);
    DiscoveredOn(table, root, found, done, current, kids);
    forall p | p in found ensures p in Pids(table) {
      var i :| 0 <= i < |found| && found[i] == p;
      FoundIsListed(table, root, found, done, i);
    }
  }

  lemma FoundIsListed(table: seq<Edge>, root: nat, found: seq<nat>, done: set<nat>, i: nat)
    requires i < |found| && ParentEarlier(table, root, found, done, i)
    ensures found[i] in Pids(table)
  {
    var q :| q in done && Child(table, root, q, found[i]) && (q == root || q in found[..i]);
    assert (q, found[i]) in table;
  }

  lemma WaitingOn(root: nat, found: seq<nat>, rest: seq<nat>, current: nat, done: set<nat>, kids: seq<nat>)
    requires Waiting(root, found, rest + [current], done)
    requires Distinct(kids) && forall p | p in kids :: p !in found && p != root
    ensures Waiting(root, found + kids, rest + kids, done + {current})
  {
    var frontier := rest + [current];
    assert forall i | 0 <= i < |rest| :: frontier[i] == rest[i] && frontier[i] != frontier[|rest|];
    assert forall p :: p in frontier <==> p in rest || p == current;
    DistinctConcat(found, kids);
    DistinctConcat(rest, kids);
  }

  lemma DiscoveredOn(table: seq<Edge>, root: nat, found: seq<nat>, done: set<nat>, current: nat, kids: seq<nat>)
    requires Discovered(table, root, found, done) && (current in found || current == root)
    requires forall p :: p in kids <==> Child(table, root, current, p)
    requires forall p | p in kids :: Descendant(table, root, root, p)
    ensures Discovered(table, root, found + kids, done + {current})
  {
    forall i | 0 <= i < |found + kids| ensures ParentEarlier(table, root, found + kids, done + {current}, i) {
      if i < |found| {
        assert ParentEarlier(table, root, found, done, i);
        assert (found + kids)[..i] == found[..i];
      } else {
        assert kids[i - |found|] in kids;
        assert Child(table, root, current, (found + kids)[i]);
        assert found <= (found + kids)[..i];
      }
    }
  }

  lemma DistinctConcat(a: seq<nat>, b: seq<nat>)
    requires Distinct(a) && Distinct(b) && forall x | x in b :: x !in a
    ensures Distinct(a + b)
  {
    assert forall j | 0 <= j < |b| :: b[j] in b;
  }

  lemma SubsetSize(a: set<nat>, b: set<nat>)
    requires a <= b
    ensures |a| <= |b|
  {
    assert b == a + (b - a);
  }

  /** The depth-first search over the snapshot. */
  method Search(table: seq<Edge>, root: nat) returns (found: seq<nat>, ghost done: set<nat>)
    requires Snapshot(table)
    ensures Walking(table, root, found, [], done)
  {
    var frontier: seq<nat> := [root];
    found, done := [], {};
    WalkStarts(table, root);
    while |frontier| > 0
      invariant Walking(table, root, found, frontier, done)
      decreases |Pids(table) + {root}| - |done|
    {
      var current := frontier[|frontier| - 1];
      var rest := frontier[..|frontier| - 1];
      ghost var before, waiting := found, frontier;
      ghost var kids;
      found, frontier, kids := ListChildren(table, root, current, found, rest);
      WalkOn(table, root, before, waiting, rest, current, done, kids);
      done := done + {current};
    }
    assert frontier == [];
  }

  /** `descendant_pids`: exactly the descendants of the root, each once, and every process
      before its own parent. */
  method DescendantPids(table: seq<Edge>, root: nat) returns (pids: seq<nat>)
    requires Snapshot(table)
    ensures Distinct(pids) && root !in pids
    ensures forall p :: p in pids <==> Descendant(table, root, root, p)
    ensures forall i, j | 0 <= i < |pids| && 0 <= j < |pids| && Child(table, root, pids[i], pids[j]) :: j < i
  {
    var found;
    ghost var done;
    found, done := Search(table, root);
    pids := Reverse(found);
    WalkEnds(table, root, found, done, pids);
  }

  /** What the walk has found when nothing waits any more, read backwards. */
  lemma WalkEnds(table: seq<Edge>, root: nat, found: seq<nat>, done: set<nat>, pids: seq<nat>)
    requires Snapshot(table) && Walking(table, root, found, [], done)
    requires |pids| == |found| && forall i | 0 <= i < |found| :: pids[i] == found[|found| - 1 - i]
    ensures Distinct(pids) && root !in pids
    ensures forall p :: p in pids <==> Descendant(table, root, root, p)
    ensures forall i, j | 0 <= i < |pids| && 0 <= j < |pids| && Child(table, root, pids[i], pids[j]) :: j < i
  {
    assert forall i | 0 <= i < |found| :: found[i] == pids[|found| - 1 - i];
    assert forall p :: p in pids <==> p in found;
    forall p: nat, n: nat | n > 0 && Below(table, root, root, p, n) ensures p in found {
      AllFound(table, root, found, done, p, n);
    }
    forall i, j | 0 <= i < |pids| && 0 <= j < |pids| && Child(table, root, pids[i], pids[j]) ensures j < i {
      ParentBefore(table, root, found, done, |found| - 1 - i, |found| - 1 - j);
    }
  }

  lemma {:induction false} AllFound(table: seq<Edge>, root: nat, found: seq<nat>, done: set<nat>, p: nat, n: nat)
    requires forall q :: q in done <==> q in found || q == root
    requires forall q, c | q in done && Child(table, root, q, c) :: c in found
    requires Below(table, root, root, p, n)
    ensures p in done && (n > 0 ==> p in found)
    decreases n
  {
    if n > 0 {
      var q :| Below(table, root, root, q, n - 1) && Child(table, root, q, p);
      AllFound(table, root, found, done, q, n - 1);
    }
  }

  lemma ParentBefore(table: seq<Edge>, root: nat, found: seq<nat>, done: set<nat>, i: nat, j: nat)
    requires Snapshot(table) && Distinct(found) && root !in found && i < |found| && j < |found|
    requires ParentEarlier(table, root, found, done, j) && Child(table, root, found[i], found[j])
    ensures i < j
  {
    var q :| q in done && Child(table, root, q, found[j]) && (q == root || q in found[..j]);
    OneParent(table, root, q, found[i], found[j]);
    assert found[i] in found && q != root;
    var k :| 0 <= k < j && found[..j][k] == q;
    assert found[k] == found[i];
  }

  /** `kill_tree`: the signals go out deepest first and to the root last, so no process is
      signalled before any of its descendants in the snapshot. */
  method KillTree(table: seq<Edge>, root: nat) returns (signals: seq<nat>)
    requires Snapshot(table)
    ensures Distinct(signals) && signals != [] && signals[|signals| - 1] == root
    ensures forall p :: p in signals <==> p == root || Descendant(table, root, root, p)
    ensures forall i, j | 0 <= i < |signals| && 0 <= j < |signals| && Descendant(table, root, signals[i], signals[j]) :: j < i
  {
    var pids := DescendantPids(table, root);
    signals := pids + [root];
    forall q, c | (q == root || q in pids) && Child(table, root, q, c) ensures c in pids {
      ChildDescends(table, root, q, c);
    }
    forall i, j | 0 <= i < |signals| && 0 <= j < |signals| && Descendant(table, root, signals[i], signals[j]) ensures j < i {
      var n: nat :| n > 0 && Below(table, root, signals[i], signals[j], n);
      Deeper(table, root, pids, signals, i, signals[j], n, j);
    }
  }

  /** Anything `n` edges below the process signalled at `i` is signalled before `i`. */
  lemma {:induction false} Deeper(table: seq<Edge>, root: nat, pids: seq<nat>, signals: seq<nat>, i: nat, p: nat, n: nat, j: nat)
    requires signals == pids + [root] && Distinct(signals) && i < |signals|
    requires forall q, c | (q == root || q in pids) && Child(table, root, q, c) :: c in pids
    requires forall a, b | 0 <= a < |pids| && 0 <= b < |pids| && Child(table, root, pids[a], pids[b]) :: b < a
    requires n > 0 && Below(table, root, signals[i], p, n) && j < |signals| && signals[j] == p
    ensures j < i
    decreases n
  {
    var q :| Below(table, root, signals[i], q, n - 1) && Child(table, root, q, p);
    var k := WhereBelow(table, root, pids, signals, i, q, n - 1);
    if n > 1 { Deeper(table, root, pids, signals, i, q, n - 1, k); }
    if k < |pids| {
      assert p in pids;
      assert signals[j] != root;
    }
  }

  lemma {:induction false} WhereBelow(table: seq<Edge>, root: nat, pids: seq<nat>, signals: seq<nat>, i: nat, q: nat, n: nat) returns (k: nat)
    requires signals == pids + [root] && Distinct(signals) && i < |signals|
    requires forall q, c | (q == root || q in pids) && Child(table, root, q, c) :: c in pids
    requires Below(table, root, signals[i], q, n)
    ensures k < |signals| && signals[k] == q && (n == 0 ==> k == i)
    decreases n
  {
    if n == 0 {
      k := i;
    } else {
      var up :| Below(table, root, signals[i], up, n - 1) && Child(table, root, up, q);
      var _ := WhereBelow(table, root, pids, signals, i, up, n - 1);
      assert up in signals && q in pids;
      k :| 0 <= k < |pids| && pids[k] == q;
    }
  }
}
