/** The pipeline tree and its flat node table (examples/httpd_decompile.rs:7290-7409). */
module StageTree {
  import opened Common

  // `StageWalk` numbers the tree in pre-order and records parent links; the three accessors
  // follow those links back down the live tree.  Rust's `&mut` parameters are exclusive
  // borrows, so they become in/out values here.

  const BREAK_START: bv32 := 1

  datatype ActionState = ActionState(
    status: bv32, count: int, lcount: int, countTests: nat, countApply: nat, flags: bv32, breakpoint: bv32)

  /** A group keeps the executor state of child `k` in slot `k` of `childStates`. */
  datatype Action =
    | Leaf(name: string)
    | Group(name: string, actions: seq<Action>, childStates: seq<ActionState>)
  {
    function Children(): (kids: seq<Action>)
      ensures forall k | 0 <= k < |kids| :: kids[k] < this
    {
      if Group? then actions else []
    }
  }

  datatype StageNode = StageNode(path: string, parent: Option<nat>, indexInParent: nat, children: seq<nat>)

  /** Every group holds exactly one state slot per child. */
  ghost predicate LockStep(a: Action) {
    a.Group? ==> |a.childStates| == |a.actions| && forall c | c in a.actions :: LockStep(c)
  }

  // ---------- Pre-order numbering ----------

  ghost function Size(a: Action): nat
    decreases a, 0
  {
    if a.Group? then 1 + SizePrefix(a.actions, |a.actions|) else 1
  }

  /** Number of nodes in the first `k` trees of `s`. */
  ghost function SizePrefix(s: seq<Action>, k: nat): nat
    requires k <= |s|
    decreases s, k
  {
    if k == 0 then 0 else SizePrefix(s, k - 1) + Size(s[k - 1])
  }

  /** The subtrees of `a` in pre-order. */
  ghost function Flat(a: Action): (f: seq<Action>)
    ensures |f| == Size(a) && f[0] == a
    decreases a, 0
  {
    if a.Group? then [a] + FlatPrefix(a.actions, |a.actions|) else [a]
  }

  ghost function FlatPrefix(s: seq<Action>, k: nat): (f: seq<Action>)
    requires k <= |s|
    ensures |f| == SizePrefix(s, k)
    decreases s, k
  {
    if k == 0 then [] else FlatPrefix(s, k - 1) + Flat(s[k - 1])
  }

  lemma SizePrefixMonotone(s: seq<Action>, j: nat, k: nat)
    requires j <= k <= |s|
    ensures SizePrefix(s, j) <= SizePrefix(s, k)
    decreases k
  {
    if j < k { SizePrefixMonotone(s, j, k - 1); }
  }

  lemma {:induction false} FlatPrefixAt(s: seq<Action>, k: nat, n: nat, j: nat)
    requires k < n <= |s| && j < Size(s[k])
    ensures SizePrefix(s, k) + j < SizePrefix(s, n)
    ensures FlatPrefix(s, n)[SizePrefix(s, k) + j] == Flat(s[k])[j]
    decreases n
  {
    if n > k + 1 { FlatPrefixAt(s, k, n - 1, j); }
  }

  /** Which child's block contains offset `off`. */
  lemma Locate(s: seq<Action>, n: nat, off: nat) returns (k: nat)
    requires n <= |s| && off < SizePrefix(s, n)
    ensures k < n && SizePrefix(s, k) <= off < SizePrefix(s, k) + Size(s[k])
    decreases n
  {
    if off >= SizePrefix(s, n - 1) { k := n - 1; } else { k := Locate(s, n - 1, off); }
  }

  // ---------- What the walk must record ----------

  /** Rows `base ..` encode tree `a`: its own row first, then each child's rows as one
      contiguous block, in child order. */
  ghost predicate Encodes(nodes: seq<StageNode>, base: nat, a: Action)
    decreases a, 1
  {
    && base + Size(a) <= |nodes|
    && |nodes[base].children| == |a.Children()|
    && forall k | 0 <= k < |a.Children()| :: KidEncoded(nodes, base, a, k)
  }

  ghost predicate KidEncoded(nodes: seq<StageNode>, base: nat, a: Action, k: nat)
    requires base < |nodes| && k < |nodes[base].children| && k < |a.Children()|
    decreases a, 0
  {
    var start := KidStart(base, a, k);
    && nodes[base].children[k] == start
    && start + Size(a.Children()[k]) <= |nodes|
    && nodes[start] == StageNode(nodes[base].path + ":" + a.Children()[k].name, Some(base), k, nodes[start].children)
    && Encodes(nodes, start, a.Children()[k])
  }

  ghost function KidStart(base: nat, a: Action, k: nat): nat
    requires k <= |a.Children()|
  {
    base + 1 + SizePrefix(a.Children(), k)
  }

  /** The whole table of a walk from the root. */
  ghost predicate WalkOf(nodes: seq<StageNode>, root: Action) {
    |nodes| == Size(root) && Encodes(nodes, 0, root) && nodes[0].parent.None?
  }

  /** Two tables agree on the rows of a block, child lists included. */
  ghost predicate SameRows(before: seq<StageNode>, after: seq<StageNode>, lo: nat, hi: nat) {
    hi <= |before| && hi <= |after| && forall i | lo <= i < hi :: after[i] == before[i]
  }

  lemma {:induction false} EncodesFrame(before: seq<StageNode>, after: seq<StageNode>, base: nat, a: Action)
    requires Encodes(before, base, a) && SameRows(before, after, base, base + Size(a))
    ensures Encodes(after, base, a)
    decreases a, 1
  {
    forall k | 0 <= k < |a.Children()| ensures KidEncoded(after, base, a, k) {
      assert KidEncoded(before, base, a, k);
      SizePrefixMonotone(a.Children(), k + 1, |a.Children()|);
      EncodesFrame(before, after, KidStart(base, a, k), a.Children()[k]);
    }
  }

  /** A finished child survives later growth of the table and of its parent's child list. */
  lemma KidFrame(before: seq<StageNode>, after: seq<StageNode>, base: nat, a: Action, k: nat)
    requires base < |before| && k < |before[base].children| && k < |a.Children()|
    requires KidEncoded(before, base, a, k)
    requires SameRows(before, after, base + 1, KidStart(base, a, k + 1))
    requires after[base].path == before[base].path && k < |after[base].children|
    requires after[base].children[k] == before[base].children[k]
    ensures KidEncoded(after, base, a, k)
  {
    EncodesFrame(before, after, KidStart(base, a, k), a.Children()[k]);
  }

  /** `stage_walk`: the table it returns extends the old one by exactly the encoding of `action`. */
  method StageWalk(action: Action, parent: Option<nat>, indexInParent: nat, path: string, nodes: seq<StageNode>)
    returns (index: nat, table: seq<StageNode>)
    ensures index == |nodes| && |table| == |nodes| + Size(action)
    ensures table[..|nodes|] == nodes
    ensures table[index] == StageNode(path, parent, indexInParent, table[index].children)
    ensures Encodes(table, index, action)
    decreases action
  {
    index := |nodes|;
    table := nodes + [StageNode(path, parent, indexInParent, [])];
    if action.Group? {
      for k := 0 to |action.actions|
        invariant |table| == KidStart(index, action, k)
        invariant SameRows(nodes, table, 0, index)
        invariant table[index] == StageNode(path, parent, indexInParent, table[index].children)
        invariant |table[index].children| == k
        invariant forall j | 0 <= j < k :: KidEncoded(table, index, action, j)
      {
        var childPath := path + ":" + action.actions[k].name;
        var childId, grown := StageWalk(action.actions[k], Some(index), k, childPath, table);
        ghost var before := table;
        assert SameRows(before, grown, 0, |before|) by {
          forall i | 0 <= i < |before| ensures grown[i] == before[i] { assert grown[i] == grown[..|before|][i]; }
        }
        table := grown[index := grown[index].(children := grown[index].children + [childId])];
        forall j | 0 <= j < k + 1 ensures KidEncoded(table, index, action, j) {
          if j < k {
            SizePrefixMonotone(action.actions, j + 1, k);
            KidFrame(before, table, index, action, j);
          } else {
            EncodesFrame(grown, table, childId, action.actions[k]);
          }
        }
      }
    }
  }

  // ---------- The table's links are the tree's edges ----------

  /** Parents come first, and parent link and child list name the same edge. */
  ghost predicate TreeTable(nodes: seq<StageNode>) {
    && |nodes| > 0 && nodes[0].parent.None?
    && (forall i | 1 <= i < |nodes| :: LinkedUp(nodes, i))
    && (forall p, k | 0 <= p < |nodes| && 0 <= k < |nodes[p].children| :: LinkedDown(nodes, p, k))
  }

  ghost predicate LinkedUp(nodes: seq<StageNode>, i: nat)
    requires i < |nodes|
  {
    && nodes[i].parent.Some?
    && nodes[i].parent.value < i
    && nodes[i].indexInParent < |nodes[nodes[i].parent.value].children|
    && nodes[nodes[i].parent.value].children[nodes[i].indexInParent] == i
  }

  ghost predicate LinkedDown(nodes: seq<StageNode>, p: nat, k: nat)
    requires p < |nodes| && k < |nodes[p].children|
  {
    var c := nodes[p].children[k];
    p < c < |nodes| && nodes[c].parent == Some(p) && nodes[c].indexInParent == k
  }

  /** Row `i` stands for the `i`-th subtree in pre-order, and its parent link for a tree edge. */
  ghost predicate EdgeOf(nodes: seq<StageNode>, base: nat, a: Action, i: nat)
    requires base <= i < base + Size(a) <= |nodes|
  {
    && |nodes[i].children| == |Flat(a)[i - base].Children()|
    && (forall k | 0 <= k < |nodes[i].children| :: LinkedDown(nodes, i, k))
    && (i > base ==>
          && LinkedUp(nodes, i)
          && nodes[i].parent.value >= base
          && KidOf(Flat(a)[nodes[i].parent.value - base], nodes[i].indexInParent, Flat(a)[i - base])
          && nodes[i].path == nodes[nodes[i].parent.value].path + ":" + Flat(a)[i - base].name)
  }

  ghost predicate KidOf(up: Action, slot: nat, kid: Action) {
    slot < |up.Children()| && up.Children()[slot] == kid
  }

  /** The rows of child `k` are a stretch of its parent's pre-order. */
  lemma FlatKid(a: Action, k: nat, j: nat)
    requires k < |a.Children()| && j < Size(a.Children()[k])
    ensures KidStart(0, a, k) + j < Size(a)
    ensures Flat(a)[KidStart(0, a, k) + j] == Flat(a.Children()[k])[j]
  {
    FlatPrefixAt(a.Children(), k, |a.Children()|, j);
  }

  lemma {:induction false} EncodedEdge(nodes: seq<StageNode>, base: nat, a: Action, i: nat)
    requires Encodes(nodes, base, a) && base <= i < base + Size(a)
    ensures EdgeOf(nodes, base, a, i)
    decreases a
  {
    if i == base {
      forall k | 0 <= k < |a.Children()| ensures LinkedDown(nodes, i, k) {
        assert KidEncoded(nodes, base, a, k);
      }
    } else {
      var k := Locate(a.Children(), |a.Children()|, i - base - 1);
      var kid, start := a.Children()[k], KidStart(base, a, k);
      assert KidEncoded(nodes, base, a, k);
      EncodedEdge(nodes, start, kid, i);
      KidEdge(nodes, base, a, k, i);
    }
  }

  /** An edge of a child's tree is an edge of its parent's tree. */
  lemma {:induction false} KidEdge(nodes: seq<StageNode>, base: nat, a: Action, k: nat, i: nat)
    requires base + Size(a) <= |nodes| && k < |a.Children()| && k < |nodes[base].children|
    requires KidEncoded(nodes, base, a, k) && base <= i < base + Size(a)
    requires KidStart(base, a, k) <= i < KidStart(base, a, k) + Size(a.Children()[k])
    requires EdgeOf(nodes, KidStart(base, a, k), a.Children()[k], i)
    ensures EdgeOf(nodes, base, a, i)
  {
    var start := KidStart(base, a, k);
    FlatKid(a, k, i - start);
    if i > start { FlatKid(a, k, nodes[i].parent.value - start); }
  }

  lemma WalkedTable(nodes: seq<StageNode>, root: Action)
    requires WalkOf(nodes, root)
    ensures TreeTable(nodes)
    ensures forall i | 0 <= i < |nodes| :: EdgeOf(nodes, 0, root, i)
  {
    forall i | 0 <= i < |nodes| ensures EdgeOf(nodes, 0, root, i) {
      EncodedEdge(nodes, 0, root, i);
    }
    forall p, k | 0 <= p < |nodes| && 0 <= k < |nodes[p].children| ensures LinkedDown(nodes, p, k) {
      assert EdgeOf(nodes, 0, root, p);
    }
    forall i | 1 <= i < |nodes| ensures LinkedUp(nodes, i) {
      assert EdgeOf(nodes, 0, root, i);
    }
  }

  /** Only row 0 has no parent. */
  lemma RootRow(nodes: seq<StageNode>, i: nat)
    requires TreeTable(nodes) && i < |nodes|
    ensures nodes[i].parent.None? <==> i == 0
  {
    if i > 0 { assert LinkedUp(nodes, i); }
  }

  // ---------- Following links back down ----------

  /** Child slots from the root to row `i`. */
  ghost function Chain(nodes: seq<StageNode>, i: nat): seq<nat>
    requires TreeTable(nodes) && i < |nodes|
    decreases i
  {
    if i == 0 then [] else
      assert LinkedUp(nodes, i);
      Chain(nodes, nodes[i].parent.value) + [nodes[i].indexInParent]
  }

  /** The subtree reached from `a` by taking child `steps[0]`, then `steps[1]`, ... */
  ghost function Descend(a: Action, steps: seq<nat>): Option<Action>
    decreases |steps|
  {
    if steps == [] then Some(a)
    else if steps[0] < |a.Children()| then Descend(a.Children()[steps[0]], steps[1..])
    else None
  }

  lemma {:induction false} DescendSnoc(a: Action, steps: seq<nat>, last: nat)
    ensures Descend(a, steps + [last]) ==
            match Descend(a, steps)
            case None => None
            case Some(b) => if last < |b.Children()| then Some(b.Children()[last]) else None
    decreases |steps|
  {
    if steps == [] {
      assert [last][1..] == [];
    } else {
      assert (steps + [last])[1..] == steps[1..] + [last];
      if steps[0] < |a.Children()| { DescendSnoc(a.Children()[steps[0]], steps[1..], last); }
    }
  }

  lemma {:induction false} ChainReaches(nodes: seq<StageNode>, root: Action, i: nat)
    requires TreeTable(nodes) && i < |nodes| == Size(root)
    requires forall j | 0 <= j < |nodes| :: EdgeOf(nodes, 0, root, j)
    ensures Descend(root, Chain(nodes, i)) == Some(Flat(root)[i])
    decreases i
  {
    if i > 0 {
      assert LinkedUp(nodes, i) && EdgeOf(nodes, 0, root, i);
      var p := nodes[i].parent.value;
      ChainReaches(nodes, root, p);
      DescendSnoc(root, Chain(nodes, p), nodes[i].indexInParent);
    }
  }

  lemma {:induction false} ChainInjective(nodes: seq<StageNode>, i: nat, j: nat)
    requires TreeTable(nodes) && i < |nodes| && j < |nodes|
    requires Chain(nodes, i) == Chain(nodes, j)
    ensures i == j
    decreases i
  {
    if i > 0 && j > 0 {
      assert LinkedUp(nodes, i) && LinkedUp(nodes, j);
      var ci, cj := Chain(nodes, nodes[i].parent.value), Chain(nodes, nodes[j].parent.value);
      assert ci == (ci + [nodes[i].indexInParent])[..|ci|];
      assert cj == (cj + [nodes[j].indexInParent])[..|cj|];
      ChainInjective(nodes, nodes[i].parent.value, nodes[j].parent.value);
      assert (ci + [nodes[i].indexInParent])[|ci|] == (cj + [nodes[j].indexInParent])[|cj|];
    }
  }

  /** The bottom-up loop shared by the two tree accessors. */
  method ChainTo(nodes: seq<StageNode>, node: nat) returns (chain: seq<nat>)
    requires TreeTable(nodes) && node < |nodes|
    ensures chain == Chain(nodes, node)
  {
    var up := [];
    var current := node;
    while nodes[current].parent.Some?
      invariant 0 <= current < |nodes|
      invariant Chain(nodes, node) == Chain(nodes, current) + Reversed(up)
      decreases current
    {
      RootRow(nodes, current);
      assert LinkedUp(nodes, current);
      assert Reversed(up + [nodes[current].indexInParent]) == [nodes[current].indexInParent] + Reversed(up);
      up := up + [nodes[current].indexInParent];
      current := nodes[current].parent.value;
    }
    RootRow(nodes, current);
    chain := Reverse(up);
    assert [] + Reversed(up) == Reversed(up);
  }

  /** `stage_action_of`: parent links walked back down reach the tree node the row was made from. */
  method StageActionOf(root: Action, nodes: seq<StageNode>, node: nat) returns (action: Action)
    requires WalkOf(nodes, root)
    requires node < |nodes|
    ensures action == Flat(root)[node]
  {
    WalkedTable(nodes, root);
    var chain := ChainTo(nodes, node);
    ChainReaches(nodes, root, node);
    action := root;
    for k := 0 to |chain|
      invariant Descend(action, chain[k..]) == Some(Flat(root)[node])
    {
      assert chain[k..][0] == chain[k] && chain[k..][1..] == chain[k + 1..];
      action := action.Children()[chain[k]];
    }
  }

  // ---------- Executor state slots ----------

  /** `d` names a child slot: a nonempty chain inside the tree. */
  ghost predicate SlotChain(a: Action, d: seq<nat>)
    decreases |d|
  {
    && |d| > 0 && a.Group? && |a.childStates| == |a.actions| && d[0] < |a.actions|
    && (|d| > 1 ==> SlotChain(a.actions[d[0]], d[1..]))
  }

  ghost function StateSlot(a: Action, d: seq<nat>): ActionState
    requires SlotChain(a, d)
    decreases |d|
  {
    if |d| == 1 then a.childStates[d[0]] else StateSlot(a.actions[d[0]], d[1..])
  }

  function SetBreak(s: ActionState, tp: bv32): ActionState {
    s.(breakpoint := s.breakpoint | tp)
  }

  /** The start break is on; the other break bits and all other fields are as before. */
  ghost predicate Armed(was: ActionState, now: ActionState) {
    && now == was.(breakpoint := now.breakpoint)
    && now.breakpoint & 1 != 0
    && now.breakpoint & !1 == was.breakpoint & !1
  }

  lemma SetBreakArms(s: ActionState)
    ensures Armed(s, SetBreak(s, BREAK_START))
  {
  }

  /** The descent of `stage_set_start_break`, rebuilding the borrowed path. */
  function BreakSlot(a: Action, d: seq<nat>): Action
    requires SlotChain(a, d)
    decreases |d|
  {
    if |d| == 1 then a.(childStates := a.childStates[d[0] := SetBreak(a.childStates[d[0]], BREAK_START)])
    else a.(actions := a.actions[d[0] := BreakSlot(a.actions[d[0]], d[1..])])
  }

  lemma {:induction false} BreakSlotEffect(a: Action, c: seq<nat>, d: seq<nat>)
    requires SlotChain(a, c) && SlotChain(a, d)
    ensures SlotChain(BreakSlot(a, c), d)
    ensures StateSlot(BreakSlot(a, c), d) ==
            if c == d then SetBreak(StateSlot(a, d), BREAK_START) else StateSlot(a, d)
    decreases |c|
  {
    if |c| > 1 && |d| > 1 && c[0] == d[0] {
      BreakSlotEffect(a.actions[c[0]], c[1..], d[1..]);
      assert c == d <==> c[1..] == d[1..] by {
        assert c == [c[0]] + c[1..] && d == [d[0]] + d[1..];
      }
    } else if |c| == 1 && |d| == 1 {
      assert c == d <==> c[0] == d[0];
    }
  }

  lemma {:induction false} ChainIsSlot(a: Action, d: seq<nat>)
    requires LockStep(a) && d != [] && Descend(a, d).Some?
    ensures SlotChain(a, d)
    decreases |d|
  {
    if |d| > 1 { ChainIsSlot(a.actions[d[0]], d[1..]); }
  }

  /** Lock-step state slots survive the break, and so does the shape the table encodes. */
  lemma {:induction false} BreakKeepsShape(nodes: seq<StageNode>, base: nat, a: Action, c: seq<nat>)
    requires LockStep(a) && SlotChain(a, c) && Encodes(nodes, base, a)
    ensures LockStep(BreakSlot(a, c)) && BreakSlot(a, c).name == a.name
    ensures Size(BreakSlot(a, c)) == Size(a)
    ensures Encodes(nodes, base, BreakSlot(a, c))
    decreases |c|
  {
    var b := BreakSlot(a, c);
    if |c| > 1 {
      assert KidEncoded(nodes, base, a, c[0]);
      BreakKeepsShape(nodes, KidStart(base, a, c[0]), a.actions[c[0]], c[1..]);
    }
    assert forall k | 0 <= k < |a.actions| :: Size(b.actions[k]) == Size(a.actions[k]);
    SameSizes(a.actions, b.actions, |a.actions|);
    forall k | 0 <= k < |b.actions| ensures KidEncoded(nodes, base, b, k) {
      SameSizes(a.actions, b.actions, k);
      assert KidEncoded(nodes, base, a, k);
    }
  }

  lemma {:induction false} SameSizes(s: seq<Action>, t: seq<Action>, k: nat)
    requires |s| == |t| && k <= |s|
    requires forall i | 0 <= i < |s| :: Size(s[i]) == Size(t[i])
    ensures SizePrefix(s, k) == SizePrefix(t, k)
    decreases k
  {
    if k > 0 { SameSizes(s, t, k - 1); }
  }

  /** Where `stage_state_of` looks: the root's own external state, else the parent's slot. */
  ghost function StateAt(root: Action, rootState: ActionState, nodes: seq<StageNode>, i: nat): ActionState
    requires WalkOf(nodes, root) && LockStep(root)
    requires i < |nodes|
  {
    WalkedTable(nodes, root);
    ChainReaches(nodes, root, i);
    if i == 0 then rootState else
      ChainIsSlot(root, Chain(nodes, i));
      StateSlot(root, Chain(nodes, i))
  }

  lemma {:induction false} SlotOfParent(a: Action, steps: seq<nat>, last: nat)
    requires SlotChain(a, steps + [last])
    ensures Descend(a, steps).Some? && Descend(a, steps).value.Group?
    ensures last < |Descend(a, steps).value.childStates|
    ensures StateSlot(a, steps + [last]) == Descend(a, steps).value.childStates[last]
    decreases |steps|
  {
    if steps != [] {
      assert (steps + [last])[1..] == steps[1..] + [last];
      SlotOfParent(a.actions[steps[0]], steps[1..], last);
    }
  }

  method StageStateOf(root: Action, rootState: ActionState, nodes: seq<StageNode>, node: nat) returns (state: ActionState)
    requires WalkOf(nodes, root) && LockStep(root)
    requires node < |nodes|
    ensures state == StateAt(root, rootState, nodes, node)
    ensures node == 0 ==> state == rootState
    ensures node > 0 ==> exists up: nat, slot: nat | up < |nodes| ::
              && slot < |nodes[up].children| && nodes[up].children[slot] == node
              && Flat(root)[up].Group? && slot < |Flat(root)[up].childStates| && state == Flat(root)[up].childStates[slot]
  {
    WalkedTable(nodes, root);
    RootRow(nodes, node);
    if nodes[node].parent.None? {
      state := rootState;
    } else {
      assert LinkedUp(nodes, node);
      var parent := nodes[node].parent.value;
      var group := StageActionOf(root, nodes, parent);
      ChainReaches(nodes, root, parent);
      ChainReaches(nodes, root, node);
      ChainIsSlot(root, Chain(nodes, node));
      SlotOfParent(root, Chain(nodes, parent), nodes[node].indexInParent);
      state := group.childStates[nodes[node].indexInParent];
    }
  }

  /** `stage_set_start_break` arms exactly the node it is given: `stage_state_of` sees the
      bit on that node, and every other node's state is untouched. */
  method StageSetStartBreak(root: Action, rootState: ActionState, nodes: seq<StageNode>, node: nat)
    returns (root': Action, rootState': ActionState)
    requires WalkOf(nodes, root) && LockStep(root)
    requires node < |nodes|
    ensures WalkOf(nodes, root') && LockStep(root')
    ensures forall i | 0 <= i < |nodes| ::
              if i == node then Armed(StateAt(root, rootState, nodes, i), StateAt(root', rootState', nodes, i))
              else StateAt(root', rootState', nodes, i) == StateAt(root, rootState, nodes, i)
  {
    WalkedTable(nodes, root);
    RootRow(nodes, node);
    SetBreakArms(StateAt(root, rootState, nodes, node));
    if nodes[node].parent.None? {
      return root, SetBreak(rootState, BREAK_START);
    }
    var chain := ChainTo(nodes, node);
    ChainReaches(nodes, root, node);
    ChainIsSlot(root, chain);
    BreakKeepsShape(nodes, 0, root, chain);
    root', rootState' := BreakSlot(root, chain), rootState;
    forall i | 0 <= i < |nodes|
      ensures StateAt(root', rootState', nodes, i) ==
              if i == node then SetBreak(StateAt(root, rootState, nodes, i), BREAK_START)
              else StateAt(root, rootState, nodes, i)
    {
      if i > 0 {
        assert LinkedUp(nodes, i);
        ChainReaches(nodes, root, i);
        ChainIsSlot(root, Chain(nodes, i));
        BreakSlotEffect(root, chain, Chain(nodes, i));
        if chain == Chain(nodes, i) { ChainInjective(nodes, node, i); }
      }
    }
  }
}
