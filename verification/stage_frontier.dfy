/**
 * Which nodes can start next (examples/httpd_decompile.rs:7415-7499).
 *
 * By `StageTree.StageSetStartBreak` and `StageTree.StageStateOf` the executor states behave
 * as one array indexed by table row; `ended[i]` says that row `i` has status STATUS_END.
 */
module StageCandidates {
  import opened Common
  import opened StageTree

  const RULE_REPEATAPPLY: bv32 := 4
  const RULE_ONCEPERFUNC: bv32 := 8
  const RULE_ONEACTPERFUNC: bv32 := 16

  datatype ActionInfo = ActionInfo(isGroup: bool, flags: bv32) {
    predicate Repeats() { flags & RULE_REPEATAPPLY != 0 }
    predicate Once() { flags & RULE_ONCEPERFUNC != 0 }
    predicate OneAct() { flags & RULE_ONEACTPERFUNC != 0 }
  }

  /** The static pipeline: its table, and each row's kind and flags. */
  datatype Pipeline = Pipeline(nodes: seq<StageNode>, acts: seq<ActionInfo>)

  ghost predicate ValidPipeline(p: Pipeline) {
    && TreeTable(p.nodes) && |p.acts| == |p.nodes| >= 2
    && (forall i | 0 <= i < |p.nodes| && !p.acts[i].isGroup :: p.nodes[i].children == [])
    && p.nodes[0].children != []
  }

  /** A walked tree with at least two nodes is a valid pipeline. */
  lemma WalkIsPipeline(nodes: seq<StageNode>, root: Action, acts: seq<ActionInfo>)
    requires WalkOf(nodes, root) && |nodes| >= 2 && |acts| == |nodes|
    requires forall i | 0 <= i < |nodes| :: acts[i].isGroup <==> Flat(root)[i].Group?
    ensures ValidPipeline(Pipeline(nodes, acts))
  {
    WalkedTable(nodes, root);
    assert LinkedUp(nodes, 1);
    forall i | 0 <= i < |nodes| && !acts[i].isGroup ensures nodes[i].children == [] {
      assert EdgeOf(nodes, 0, root, i);
    }
  }

  // ---------- Ancestors ----------

  ghost predicate AncOrSelf(p: Pipeline, a: nat, x: nat)
    requires ValidPipeline(p) && x < |p.nodes|
    decreases x
  {
    a == x || (x > 0 && assert LinkedUp(p.nodes, x); AncOrSelf(p, a, p.nodes[x].parent.value))
  }

  ghost predicate ProperAnc(p: Pipeline, a: nat, x: nat)
    requires ValidPipeline(p) && x < |p.nodes|
  {
    x > 0 && assert LinkedUp(p.nodes, x); AncOrSelf(p, a, p.nodes[x].parent.value)
  }

  lemma {:induction false} AncOrder(p: Pipeline, a: nat, x: nat)
    requires ValidPipeline(p) && x < |p.nodes| && AncOrSelf(p, a, x)
    ensures a <= x
    decreases x
  {
    if a != x { assert LinkedUp(p.nodes, x); AncOrder(p, a, p.nodes[x].parent.value); }
  }

  lemma {:induction false} AncTransitive(p: Pipeline, a: nat, b: nat, x: nat)
    requires ValidPipeline(p) && b < |p.nodes| && x < |p.nodes|
    requires AncOrSelf(p, a, b) && AncOrSelf(p, b, x)
    ensures AncOrSelf(p, a, x)
    decreases x
  {
    if b != x { assert LinkedUp(p.nodes, x); AncTransitive(p, a, b, p.nodes[x].parent.value); }
  }

  lemma {:induction false} RootIsAnc(p: Pipeline, x: nat)
    requires ValidPipeline(p) && x < |p.nodes|
    ensures AncOrSelf(p, 0, x)
    decreases x
  {
    if x > 0 { assert LinkedUp(p.nodes, x); RootIsAnc(p, p.nodes[x].parent.value); }
  }

  /** `stage_is_proper_ancestor`, an upward walk over parent links. */
  method StageIsProperAncestor(p: Pipeline, ancestor: nat, node: nat) returns (found: bool)
    requires ValidPipeline(p) && node < |p.nodes|
    ensures found <==> ProperAnc(p, ancestor, node)
  {
    RootRow(p.nodes, node);
    assert node > 0 ==> LinkedUp(p.nodes, node);
    var current := p.nodes[node].parent;
    while current.Some?
      invariant current.Some? ==> 0 <= current.value < |p.nodes|
      invariant ProperAnc(p, ancestor, node) <==> current.Some? && AncOrSelf(p, ancestor, current.value)
      decreases if current.Some? then current.value + 1 else 0
    {
      if current.value == ancestor { return true; }
      RootRow(p.nodes, current.value);
      assert current.value > 0 ==> LinkedUp(p.nodes, current.value);
      current := p.nodes[current.value].parent;
    }
    found := false;
  }

  // ---------- Runnable children ----------

  ghost predicate Statuses(p: Pipeline, ended: seq<bool>) {
    ValidPipeline(p) && |ended| == |p.nodes|
  }

  /** The `k`-th child of row `g`. */
  function Kid(p: Pipeline, g: nat, k: nat): (c: nat)
    requires ValidPipeline(p) && g < |p.nodes| && k < |p.nodes[g].children|
    ensures g < c < |p.nodes| && p.nodes[c].parent == Some(g) && p.nodes[c].indexInParent == k
  {
    assert LinkedDown(p.nodes, g, k);
    p.nodes[g].children[k]
  }

  ghost function FirstRunnable(p: Pipeline, ended: seq<bool>, g: nat, from: nat): Option<nat>
    requires Statuses(p, ended) && g < |p.nodes|
    decreases |p.nodes[g].children| - from
  {
    if from >= |p.nodes[g].children| then None
    else if !ended[Kid(p, g, from)] then Some(Kid(p, g, from))
    else FirstRunnable(p, ended, g, from + 1)
  }

  /** What "first runnable" means, without the search. */
  lemma {:induction false} FirstRunnableMeaning(p: Pipeline, ended: seq<bool>, g: nat, from: nat)
    requires Statuses(p, ended) && g < |p.nodes|
    ensures match FirstRunnable(p, ended, g, from)
            case None => forall j | from <= j < |p.nodes[g].children| :: ended[Kid(p, g, j)]
            case Some(c) =>
              && g < c < |p.nodes| && p.nodes[c].parent == Some(g) && !ended[c]
              && from <= p.nodes[c].indexInParent < |p.nodes[g].children| && Kid(p, g, p.nodes[c].indexInParent) == c
              && forall j | from <= j < p.nodes[c].indexInParent :: ended[Kid(p, g, j)]
    decreases |p.nodes[g].children| - from
  {
    if from < |p.nodes[g].children| && ended[Kid(p, g, from)] {
      FirstRunnableMeaning(p, ended, g, from + 1);
    }
  }

  lemma {:induction false} FirstRunnableAt(p: Pipeline, ended: seq<bool>, g: nat, from: nat, k: nat)
    requires Statuses(p, ended) && g < |p.nodes| && from <= k < |p.nodes[g].children|
    requires !ended[Kid(p, g, k)] && forall j | from <= j < k :: ended[Kid(p, g, j)]
    ensures FirstRunnable(p, ended, g, from) == Some(Kid(p, g, k))
    decreases k - from
  {
    if from < k { FirstRunnableAt(p, ended, g, from + 1, k); }
  }

  method StageNextRunnable(p: Pipeline, ended: seq<bool>, group: nat, from: nat) returns (next: Option<nat>)
    requires Statuses(p, ended) && group < |p.nodes|
    ensures next == FirstRunnable(p, ended, group, from)
  {
    var k := from;
    while k < |p.nodes[group].children|
      invariant FirstRunnable(p, ended, group, from) == FirstRunnable(p, ended, group, k)
    {
      var child := Kid(p, group, k);
      if !ended[child] { return Some(child); }
      k := k + 1;
    }
    next := None;
  }

  // ---------- The candidate set ----------

  ghost function Opt(o: Option<nat>): set<nat> {
    if o.Some? then {o.value} else {}
  }

  /** Candidates met while climbing from `cur`: stop at the first level with a runnable later
      sibling; below that, a repeating parent (or the root) may start over from its first child. */
  ghost function Climb(p: Pipeline, ended: seq<bool>, cur: nat): set<nat>
    requires Statuses(p, ended) && cur < |p.nodes|
    decreases cur
  {
    if cur == 0 then {} else
      assert LinkedUp(p.nodes, cur);
      var up := p.nodes[cur].parent.value;
      var sibling := FirstRunnable(p, ended, up, p.nodes[cur].indexInParent + 1);
      if sibling.Some? then {sibling.value}
      else (if p.acts[up].Repeats() || up == 0 then Opt(FirstRunnable(p, ended, up, 0)) else {})
           + Climb(p, ended, up)
  }

  ghost function Frontier(p: Pipeline, ended: seq<bool>, node: nat): set<nat>
    requires Statuses(p, ended) && node < |p.nodes|
  {
    Opt(FirstRunnable(p, ended, node, 0)) + Climb(p, ended, node)
  }

  ghost predicate Lists(list: seq<nat>, s: set<nat>) {
    Distinct(list) && forall c :: c in list <==> c in s
  }

  method Push(value: nat, list: seq<nat>, ghost s: set<nat>) returns (out: seq<nat>)
    requires Lists(list, s)
    ensures Lists(out, s + {value})
  {
    out := if value in list then list else list + [value];
  }

  method PushOpt(o: Option<nat>, list: seq<nat>, ghost s: set<nat>) returns (out: seq<nat>)
    requires Lists(list, s)
    ensures Lists(out, s + Opt(o))
  {
    out := list;
    if o.Some? {
      out := Push(o.value, list, s);
    } else {
      assert s + Opt(o) == s;
    }
  }

  method StageFrontier(p: Pipeline, ended: seq<bool>, node: nat) returns (candidates: seq<nat>)
    requires Statuses(p, ended) && node < |p.nodes|
    ensures Lists(candidates, Frontier(p, ended, node))
  {
    candidates := [];
    ghost var s: set<nat> := {};
    RootRow(p.nodes, node);
    if p.nodes[node].parent.None? || p.acts[node].isGroup {
      var child := StageNextRunnable(p, ended, node, 0);
      candidates := PushOpt(child, candidates, s);
      s := s + Opt(child);
    }
    var current := node;
    while p.nodes[current].parent.Some?
      invariant 0 <= current < |p.nodes|
      invariant Lists(candidates, s)
      invariant s + Climb(p, ended, current) == Frontier(p, ended, node)
      decreases current
    {
      RootRow(p.nodes, current);
      assert LinkedUp(p.nodes, current);
      var parent := p.nodes[current].parent.value;
      var sibling := StageNextRunnable(p, ended, parent, p.nodes[current].indexInParent + 1);
      if sibling.Some? {
        candidates := Push(sibling.value, candidates, s);
        return;
      }
      var first := StageNextRunnable(p, ended, parent, 0);
      ghost var extra := if p.acts[parent].Repeats() || parent == 0 then Opt(first) else {};
      if p.acts[parent].Repeats() {
        candidates := PushOpt(first, candidates, s);
        s := s + Opt(first);
      }
      if parent == 0 {
        candidates := PushOpt(first, candidates, s);
        s := s + Opt(first);
      }
      assert Climb(p, ended, current) == extra + Climb(p, ended, parent);
      current := parent;
    }
    RootRow(p.nodes, current);
  }

  /** What the frontier code itself decides: every candidate is runnable and is a child of
      the current node or of one of its ancestors. */
  lemma {:induction false} ClimbSound(p: Pipeline, ended: seq<bool>, cur: nat, c: nat)
    requires Statuses(p, ended) && cur < |p.nodes| && c in Climb(p, ended, cur)
    ensures 0 < c < |p.nodes| && !ended[c]
    ensures exists up: nat | up < |p.nodes| :: p.nodes[c].parent == Some(up) && ProperAnc(p, up, cur)
    decreases cur
  {
    assert LinkedUp(p.nodes, cur);
    var up := p.nodes[cur].parent.value;
    FirstRunnableMeaning(p, ended, up, p.nodes[cur].indexInParent + 1);
    FirstRunnableMeaning(p, ended, up, 0);
    assert ProperAnc(p, up, cur);
    if FirstRunnable(p, ended, up, p.nodes[cur].indexInParent + 1).None? && c in Climb(p, ended, up) {
      ClimbSound(p, ended, up, c);
      var w: nat :| w < |p.nodes| && p.nodes[c].parent == Some(w) && ProperAnc(p, w, up);
      assert ProperAnc(p, w, cur);
    }
  }

  lemma FrontierSound(p: Pipeline, ended: seq<bool>, node: nat, c: nat)
    requires Statuses(p, ended) && node < |p.nodes| && c in Frontier(p, ended, node)
    ensures 0 < c < |p.nodes| && !ended[c]
    ensures exists up: nat | up < |p.nodes| :: p.nodes[c].parent == Some(up) && AncOrSelf(p, up, node)
  {
    FirstRunnableMeaning(p, ended, node, 0);
    if c in Climb(p, ended, node) {
      ClimbSound(p, ended, node, c);
      var up: nat :| up < |p.nodes| && p.nodes[c].parent == Some(up) && ProperAnc(p, up, node);
      assert AncOrSelf(p, up, node);
    } else {
      assert AncOrSelf(p, node, node);
    }
  }
}
