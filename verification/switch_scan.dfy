/**
 * The linear instruction scan and the search for default-case handlers outside every function
 * (examples/httpd_decompile.rs:6410-6727).  The lifter is an arbitrary function from addresses
 * to a positive step with its p-code, or a failure.
 *
 * A handler is found by the conditional branch that guards it and the indirect jump that the
 * branch falls through to.
 */
module SwitchScan {
  import opened Common
  import opened LittleEndian
  import opened Pcode
  import opened Sorting

  type Step = n: nat | n > 0 witness 1

  type Lifter = nat -> Option<(Step, seq<Op>)>

  datatype Flow = Fallthrough | Branch | Cbranch | Branchind | Call | Callind | Return

  datatype Insn = Insn(addr: nat, length: Step, flow: Flow, target: Option<nat>)

  // ---------- Classifying one instruction ----------

  function FlowOf(op: Op): Option<Flow> {
    if op.opcode == CPUI_BRANCH then Some(Branch)
    else if op.opcode == CPUI_CBRANCH then Some(Cbranch)
    else if op.opcode == CPUI_BRANCHIND then Some(Branchind)
    else if op.opcode == CPUI_CALL then Some(Call)
    else if op.opcode == CPUI_CALLIND then Some(Callind)
    else if op.opcode == CPUI_RETURN then Some(Return)
    else None
  }

  /** The direct target an op contributes. */
  function TargetOf(op: Op): Option<nat> {
    if (op.opcode == CPUI_BRANCH || op.opcode == CPUI_CBRANCH || op.opcode == CPUI_CALL)
       && |op.inputs| > 0 && op.inputs[0].space.Ram?
    then Some(op.inputs[0].offset) else None
  }

  /** The last control op of an instruction decides its flow. */
  function FlowOfAll(ops: seq<Op>): Flow {
    if ops == [] then Fallthrough
    else if FlowOf(ops[|ops| - 1]).Some? then FlowOf(ops[|ops| - 1]).value
    else FlowOfAll(ops[..|ops| - 1])
  }

  /** ... and the last direct target is kept, even one set before the deciding op. */
  function TargetOfAll(ops: seq<Op>): Option<nat> {
    if ops == [] then None
    else if TargetOf(ops[|ops| - 1]).Some? then TargetOf(ops[|ops| - 1])
    else TargetOfAll(ops[..|ops| - 1])
  }

  /** The record the scan makes at `addr`; a byte that does not lift is a one-byte fallthrough. */
  function InsnAt(lift: Lifter, addr: nat): (r: Insn)
    ensures r.addr == addr
  {
    match lift(addr)
    case None => Insn(addr, 1, Fallthrough, None)
    case Some((step, ops)) => Insn(addr, step, FlowOfAll(ops), TargetOfAll(ops))
  }

  method Classify(addr: nat, step: Step, ops: seq<Op>) returns (r: Insn)
    ensures r == Insn(addr, step, FlowOfAll(ops), TargetOfAll(ops))
  {
    var flow, target: Option<nat> := Fallthrough, None;
    for i := 0 to |ops|
      invariant flow == FlowOfAll(ops[..i]) && target == TargetOfAll(ops[..i])
    {
      assert ops[..i + 1][..i] == ops[..i];
      if FlowOf(ops[i]).Some? { flow := FlowOf(ops[i]).value; }
      if TargetOf(ops[i]).Some? { target := TargetOf(ops[i]); }
    }
    assert ops[..|ops|] == ops;
    r := Insn(addr, step, flow, target);
  }

  // ---------- The scan tiles the range ----------

  /** Record `i + 1` begins where record `i` ends. */
  ghost predicate Joined(insns: seq<Insn>, i: nat)
    requires i + 1 < |insns|
  {
    insns[i].addr + insns[i].length == insns[i + 1].addr
  }

  /** Record `i` is the lift at its own address. */
  ghost predicate Lifted(lift: Lifter, insns: seq<Insn>, i: nat, stop: nat)
    requires i < |insns|
  {
    insns[i] == InsnAt(lift, insns[i].addr) && insns[i].addr < stop
  }

  ghost predicate Adjacent(insns: seq<Insn>) {
    forall i: nat | i + 1 < |insns| :: Joined(insns, i)
  }

  /** Each record is the lift at its own address, and the next begins where it ends. */
  ghost predicate Tiles(lift: Lifter, insns: seq<Insn>, start: nat, stop: nat) {
    && (forall i: nat | i < |insns| :: Lifted(lift, insns, i, stop))
    && Adjacent(insns)
    && (insns != [] ==> insns[0].addr == start)
  }

  function EndOf(insns: seq<Insn>, start: nat): nat {
    if insns == [] then start else insns[|insns| - 1].addr + insns[|insns| - 1].length
  }

  lemma TileMore(lift: Lifter, insns: seq<Insn>, start: nat, stop: nat, insn: Insn)
    requires Tiles(lift, insns, start, stop) && insn == InsnAt(lift, EndOf(insns, start)) && EndOf(insns, start) < stop
    ensures Tiles(lift, insns + [insn], start, stop)
  {
    var more := insns + [insn];
    forall i: nat | i + 1 < |more| ensures Joined(more, i) {
      assert i + 1 < |insns| ==> Joined(insns, i);
    }
    forall i: nat | i < |more| ensures Lifted(lift, more, i, stop) {
      assert i < |insns| ==> Lifted(lift, insns, i, stop);
    }
  }

  /** The scan: a gap-free chain of records from `start` to the first end at or past `stop`. */
  method SleighScanRange(lift: Lifter, start: nat, stop: nat) returns (insns: seq<Insn>)
    ensures Tiles(lift, insns, start, stop) && EndOf(insns, start) >= stop
    ensures start < stop ==> insns != []
  {
    insns := [];
    var addr := start;
    while addr < stop
      invariant Tiles(lift, insns, start, stop) && addr == EndOf(insns, start)
      invariant start < addr ==> insns != []
      decreases stop - addr
    {
      var insn;
      match lift(addr) {
        case Some((step, ops)) => insn := Classify(addr, step, ops);
        case None => insn := Insn(addr, 1, Fallthrough, None);
      }
      TileMore(lift, insns, start, stop, insn);
      insns := insns + [insn];
      addr := addr + insn.length;
    }
  }

  /** Later records start at or after the end of earlier ones. */
  lemma {:induction false} Ascending(lift: Lifter, insns: seq<Insn>, start: nat, stop: nat, i: nat, j: nat)
    requires Tiles(lift, insns, start, stop) && i < j < |insns|
    ensures insns[i].addr + insns[i].length <= insns[j].addr
    decreases j
  {
    if i < j - 1 { Ascending(lift, insns, start, stop, i, j - 1); }
    assert Joined(insns, j - 1);
  }

  /** The scan is determined by the lifter and the range: two tilings that reach the end are
      the same. */
  lemma {:induction false} OneTiling(lift: Lifter, a: seq<Insn>, b: seq<Insn>, start: nat, stop: nat)
    requires Tiles(lift, a, start, stop) && Tiles(lift, b, start, stop)
    requires EndOf(a, start) >= stop && EndOf(b, start) >= stop
    ensures a == b
  {
    if |a| <= |b| { SamePrefix(lift, a, b, start, stop, |a|); EndsTogether(lift, a, b, start, stop); }
    else { SamePrefix(lift, b, a, start, stop, |b|); EndsTogether(lift, b, a, start, stop); }
  }

  lemma {:induction false} SamePrefix(lift: Lifter, a: seq<Insn>, b: seq<Insn>, start: nat, stop: nat, n: nat)
    requires Tiles(lift, a, start, stop) && Tiles(lift, b, start, stop) && n <= |a| && n <= |b|
    ensures a[..n] == b[..n]
    decreases n
  {
    if n > 0 {
      SamePrefix(lift, a, b, start, stop, n - 1);
      assert a[..n] == a[..n - 1] + [a[n - 1]] && b[..n] == b[..n - 1] + [b[n - 1]];
      assert Lifted(lift, a, n - 1, stop) && Lifted(lift, b, n - 1, stop);
      if n > 1 {
        assert a[n - 2] == a[..n - 1][n - 2] == b[..n - 1][n - 2] == b[n - 2];
        assert Joined(a, n - 2) && Joined(b, n - 2);
      }
    }
  }

  lemma EndsTogether(lift: Lifter, a: seq<Insn>, b: seq<Insn>, start: nat, stop: nat)
    requires Tiles(lift, a, start, stop) && Tiles(lift, b, start, stop)
    requires EndOf(a, start) >= stop && |a| <= |b| && a == b[..|a|]
    ensures a == b
  {
    PrefixesFallShort(lift, b, start, stop);
    assert b == b[..|b|];
  }

  lemma PrefixesFallShort(lift: Lifter, b: seq<Insn>, start: nat, stop: nat)
    requires Tiles(lift, b, start, stop)
    ensures forall n | 0 <= n < |b| :: EndOf(b[..n], start) < stop
  {
    forall n | 0 <= n < |b| ensures EndOf(b[..n], start) < stop {
      assert Lifted(lift, b, n, stop) && (n > 0 ==> Joined(b, n - 1));
    }
  }

  // ---------- From a guard to its indirect jump ----------

  const MAX_STEPS: nat := 32
  const MAX_BODY: nat := 256

  predicate IsBranch(f: Flow) { f.Branch? || f.Cbranch? || f.Branchind? || f.Callind? }

  predicate IsCall(f: Flow) { f.Call? || f.Callind? }

  /** The first instruction after `i` that transfers control is an indirect jump, at `j`, with
      at most MAX_STEPS plain instructions between. */
  ghost predicate Dispatches(insns: seq<Insn>, i: nat, j: nat) {
    && i < j < |insns| && j - i - 1 <= MAX_STEPS && insns[j].flow.Branchind?
    && forall k | i < k < j :: insns[k].flow.Fallthrough?
  }

  /** The fallthrough walk.  On a tiled list its adjacency test never fails. */
  method FindDispatch(insns: seq<Insn>, idx: nat) returns (dispatch: Option<nat>)
    requires idx < |insns| && Adjacent(insns)
    ensures dispatch.Some? <==> exists j: nat :: Dispatches(insns, idx, j)
    ensures forall j: nat | Dispatches(insns, idx, j) :: dispatch == Some(insns[j].addr)
  {
    dispatch := None;
    var curEnd, steps := insns[idx].addr + insns[idx].length, 0;
    var n := idx + 1;
    while n < |insns|
      invariant idx < n <= |insns| && steps == n - idx - 1 <= MAX_STEPS && dispatch == None
      invariant curEnd == insns[n - 1].addr + insns[n - 1].length
      invariant forall k | idx < k < n :: insns[k].flow.Fallthrough?
    {
      var next := insns[n];
      assert Joined(insns, n - 1);
      if next.addr != curEnd {
        // Unreachable on a tiled list.
        assert false;
        break;
      }
      if next.flow.Branchind? {
        assert Dispatches(insns, idx, n);
        return Some(next.addr);
      }
      if IsBranch(next.flow) || IsCall(next.flow) || next.flow.Return? {
        break;
      }
      curEnd := curEnd + next.length;
      steps := steps + 1;
      n := n + 1;
      if steps > MAX_STEPS { break; }
    }
  }

  // ---------- The extent of a handler ----------

  predicate Terminal(f: Flow) { f.Return? || (IsBranch(f) && !IsCall(f)) }

  function SizeOf(insns: seq<Insn>, i: nat, m: nat): nat
    requires i <= m <= |insns|
    decreases m
  {
    if m == i then 0 else SizeOf(insns, i, m - 1) + insns[m - 1].length
  }

  /** The body goes on past instruction `k`. */
  predicate GoesOn(insns: seq<Insn>, i: nat, k: nat)
    requires i <= k < |insns|
  {
    !Terminal(insns[k].flow) && SizeOf(insns, i, k + 1) <= MAX_BODY
  }

  /** The body is `insns[i..m]`: up to the first terminal instruction, or to the first that
      takes it past MAX_BODY bytes, or to the end of the text. */
  ghost predicate Body(insns: seq<Insn>, i: nat, m: nat) {
    && i < m <= |insns|
    && (forall k | i <= k < m - 1 :: GoesOn(insns, i, k))
    && (m == |insns| || !GoesOn(insns, i, m - 1))
  }

  method BodySize(insns: seq<Insn>, start: nat) returns (size: nat, ghost m: nat)
    requires start < |insns|
    ensures Body(insns, start, m) && size == SizeOf(insns, start, m)
  {
    var n := start;
    size := 0;
    while n < |insns|
      invariant start <= n <= |insns| && size == SizeOf(insns, start, n)
      invariant forall k | start <= k < n :: GoesOn(insns, start, k)
      decreases |insns| - n
    {
      var probe := insns[n];
      size := size + probe.length;
      n := n + 1;
      if Terminal(probe.flow) || size > MAX_BODY {
        assert !GoesOn(insns, start, n - 1);
        return size, n;
      }
      assert GoesOn(insns, start, n - 1);
    }
    m := n;
  }

  lemma NotShorter(insns: seq<Insn>, i: nat, m: nat, n: nat)
    requires Body(insns, i, m) && Body(insns, i, n)
    ensures m <= n
  {
    assert n == |insns| || !GoesOn(insns, i, n - 1);
  }

  /** A handler has one body, and in a tiled list its size is the address distance covered. */
  lemma {:induction false} BodyFacts(lift: Lifter, insns: seq<Insn>, start: nat, stop: nat, i: nat, m: nat)
    requires Tiles(lift, insns, start, stop) && Body(insns, i, m)
    ensures SizeOf(insns, i, m) == insns[m - 1].addr + insns[m - 1].length - insns[i].addr
    ensures SizeOf(insns, i, m) <= MAX_BODY + insns[m - 1].length
    ensures forall n: nat | Body(insns, i, n) :: n == m
  {
    Covered(lift, insns, start, stop, i, m);
    if m - 1 > i { assert GoesOn(insns, i, m - 2); }
    forall n: nat | Body(insns, i, n) ensures n == m {
      NotShorter(insns, i, m, n);
      NotShorter(insns, i, n, m);
    }
  }

  lemma {:induction false} Covered(lift: Lifter, insns: seq<Insn>, start: nat, stop: nat, i: nat, m: nat)
    requires Tiles(lift, insns, start, stop) && i < m <= |insns|
    ensures SizeOf(insns, i, m) == insns[m - 1].addr + insns[m - 1].length - insns[i].addr
    decreases m
  {
    if m - 1 > i {
      Covered(lift, insns, start, stop, i, m - 1);
      assert Joined(insns, m - 2);
    }
  }

  // ---------- Entry candidates ----------

  /** The .text section after the image shift, and the file bytes. */
  datatype Text = Text(va: nat, offset: nat, length: nat, buffer: Bytes)

  predicate InText(t: Text, addr: nat) { t.va <= addr < t.va + t.length }

  predicate ByteIs(t: Text, addr: nat, b: Byte) {
    addr >= t.va && t.offset + (addr - t.va) < |t.buffer| && t.buffer[t.offset + (addr - t.va)] == b
  }

  predicate IsEndbr64(t: Text, addr: nat) {
    addr + 4 <= t.va + t.length
    && ByteIs(t, addr, 0xf3) && ByteIs(t, addr + 1, 0x0f) && ByteIs(t, addr + 2, 0x1e) && ByteIs(t, addr + 3, 0xfa)
  }

  /** Function symbols and marked instruction boundaries, inside the text. */
  ghost predicate Entry(t: Text, functions: seq<nat>, insns: seq<Insn>, e: nat) {
    InText(t, e) && (e in functions || exists i | 0 <= i < |insns| :: insns[i].addr == e && IsEndbr64(t, e))
  }

  /** Entries sorted; repeats are left in, as they change no comparison. */
  method CollectEntries(t: Text, functions: seq<nat>, insns: seq<Insn>) returns (entries: seq<nat>)
    ensures forall e :: e in entries <==> Entry(t, functions, insns, e)
    ensures SortedBy(entries, AtMost)
  {
    var marked: seq<nat> := [];
    for i := 0 to |insns|
      invariant forall e :: e in marked <==> exists k | 0 <= k < i :: insns[k].addr == e && IsEndbr64(t, e)
    {
      if IsEndbr64(t, insns[i].addr) { marked := marked + [insns[i].addr]; }
    }
    var all := functions + marked;
    var kept: seq<nat> := [];
    for i := 0 to |all|
      invariant forall e :: e in kept <==> e in all[..i] && InText(t, e)
    {
      assert all[..i + 1] == all[..i] + [all[i]];
      if InText(t, all[i]) { kept := kept + [all[i]]; }
    }
    assert all[..|all|] == all;
    entries := SortBy(kept, AtMost);
    SortBySorted(kept, AtMost);
    SameMembers(kept, entries);
  }

  /** `partition_point` of `entry <= addr` on the sorted entries. */
  method PartitionPoint(entries: seq<nat>, addr: nat) returns (n: nat)
    requires SortedBy(entries, AtMost)
    ensures n <= |entries|
    ensures forall i | 0 <= i < |entries| :: i < n <==> entries[i] <= addr
  {
    var hi := |entries|;
    n := 0;
    while n < hi
      invariant n <= hi <= |entries|
      invariant forall i | 0 <= i < n :: entries[i] <= addr
      invariant forall i | hi <= i < |entries| :: entries[i] > addr
    {
      var mid := (n + hi) / 2;
      assert forall i | 0 <= i < mid :: AtMost(entries[i], entries[mid]);
      assert forall i | mid < i < |entries| :: AtMost(entries[mid], entries[i]);
      if entries[mid] <= addr { n := mid + 1; } else { hi := mid; }
    }
  }

  // ---------- Default handlers ----------

  datatype Handler = Handler(addr: nat, size: nat, dispatch: nat)

  /** Instruction `i` is a conditional branch to `target` that guards an indirect jump at `j`. */
  ghost predicate Guards(insns: seq<Insn>, i: nat, j: nat, target: nat) {
    Dispatches(insns, i, j) && insns[i].flow.Cbranch? && insns[i].target == Some(target)
  }

  /** `target` is in the text, at an instruction boundary, before every entry candidate. */
  ghost predicate Outside(t: Text, functions: seq<nat>, insns: seq<Insn>, target: nat) {
    && InText(t, target)
    && (exists k | 0 <= k < |insns| :: insns[k].addr == target)
    && (exists e :: Entry(t, functions, insns, e))
    && forall e | Entry(t, functions, insns, e) :: target < e
  }

  /** What a reported handler is: its target is outside every function, the dispatch belongs to
      the earliest guard of that target, and the size is that of its body. */
  ghost predicate IsHandler(t: Text, functions: seq<nat>, insns: seq<Insn>, h: Handler) {
    && Outside(t, functions, insns, h.addr)
    && (exists i: nat, j: nat :: EarliestGuard(insns, i, j, h.addr) && h.dispatch == insns[j].addr)
    && (exists k: nat, m: nat :: BodyAt(insns, k, m, h.addr) && h.size == SizeOf(insns, k, m))
  }

  ghost predicate BodyAt(insns: seq<Insn>, k: nat, m: nat, addr: nat) {
    Body(insns, k, m) && insns[k].addr == addr
  }

  ghost predicate EarliestGuard(insns: seq<Insn>, i: nat, j: nat, target: nat) {
    Guards(insns, i, j, target) && forall i': nat, j': nat | i' < i :: !Guards(insns, i', j', target)
  }

  method IndexInsns(insns: seq<Insn>) returns (insnAt: map<nat, nat>)
    ensures Indexed(insns, insnAt)
  {
    insnAt := map[];
    for i := 0 to |insns|
      invariant forall a :: a in insnAt <==> exists k | 0 <= k < i :: insns[k].addr == a
      invariant forall a | a in insnAt :: insnAt[a] < i && insns[insnAt[a]].addr == a
    {
      insnAt := insnAt[insns[i].addr := i];
    }
  }

  /** The dispatch of a guard is unique. */
  lemma OneDispatch(insns: seq<Insn>, i: nat, j: nat, j': nat)
    requires Dispatches(insns, i, j) && Dispatches(insns, i, j')
    ensures j == j'
  {
  }

  /** At most one handler per target. */
  lemma OneHandler(lift: Lifter, t: Text, functions: seq<nat>, insns: seq<Insn>, h: Handler, g: Handler)
    requires Tiles(lift, insns, t.va, t.va + t.length)
    requires IsHandler(t, functions, insns, h) && IsHandler(t, functions, insns, g) && h.addr == g.addr
    ensures h == g
  {
    SameDispatch(t, functions, insns, h, g);
    SameSize(lift, t, functions, insns, h, g);
  }

  lemma SameSize(lift: Lifter, t: Text, functions: seq<nat>, insns: seq<Insn>, h: Handler, g: Handler)
    requires Tiles(lift, insns, t.va, t.va + t.length)
    requires IsHandler(t, functions, insns, h) && IsHandler(t, functions, insns, g) && h.addr == g.addr
    ensures h.size == g.size
  {
    var k: nat, m: nat :| BodyAt(insns, k, m, h.addr) && h.size == SizeOf(insns, k, m);
    var l: nat, n: nat :| BodyAt(insns, l, n, g.addr) && g.size == SizeOf(insns, l, n);
    SamePlace(lift, insns, t.va, t.va + t.length, k, l);
    BodyFacts(lift, insns, t.va, t.va + t.length, k, m);
  }

  lemma SamePlace(lift: Lifter, insns: seq<Insn>, start: nat, stop: nat, k: nat, l: nat)
    requires Tiles(lift, insns, start, stop) && k < |insns| && l < |insns| && insns[k].addr == insns[l].addr
    ensures k == l
  {
    if k < l { Ascending(lift, insns, start, stop, k, l); }
    if l < k { Ascending(lift, insns, start, stop, l, k); }
  }

  lemma SameDispatch(t: Text, functions: seq<nat>, insns: seq<Insn>, h: Handler, g: Handler)
    requires IsHandler(t, functions, insns, h) && IsHandler(t, functions, insns, g) && h.addr == g.addr
    ensures h.dispatch == g.dispatch
  {
    var i: nat, j: nat :| EarliestGuard(insns, i, j, h.addr) && h.dispatch == insns[j].addr;
    var i': nat, j': nat :| EarliestGuard(insns, i', j', g.addr) && g.dispatch == insns[j'].addr;
    OneDispatch(insns, i, j, j');
  }

  /** State of the guard loop: one handler for every target guarded so far. */
  ghost predicate FoundUpTo(t: Text, functions: seq<nat>, insns: seq<Insn>, n: nat, found: map<nat, (nat, nat)>) {
    && (forall a | a in found :: IsHandler(t, functions, insns, Handler(a, found[a].0, found[a].1)))
    && (forall i: nat | i < n :: Caught(t, functions, insns, i, found))
    && (forall a | a in found :: GuardedBefore(insns, n, a))
  }

  ghost predicate Caught(t: Text, functions: seq<nat>, insns: seq<Insn>, i: nat, found: map<nat, (nat, nat)>) {
    forall j: nat, a | Guards(insns, i, j, a) && Outside(t, functions, insns, a) :: a in found
  }

  ghost predicate GuardedBefore(insns: seq<Insn>, n: nat, a: nat) {
    exists i: nat, j: nat :: i < n && Guards(insns, i, j, a)
  }

  /** One guard whose dispatch was found, toward a target outside every function. */
  lemma NewHandler(t: Text, functions: seq<nat>, insns: seq<Insn>, i: nat, j: nat, k: nat, m: nat, found: map<nat, (nat, nat)>, target: nat)
    requires FoundUpTo(t, functions, insns, i, found) && target !in found
    requires Guards(insns, i, j, target) && Outside(t, functions, insns, target)
    requires BodyAt(insns, k, m, target)
    ensures IsHandler(t, functions, insns, Handler(target, SizeOf(insns, k, m), insns[j].addr))
  {
    forall i': nat, j': nat | i' < i ensures !Guards(insns, i', j', target) {
      assert Caught(t, functions, insns, i', found);
    }
    assert EarliestGuard(insns, i, j, target);
  }

  ghost predicate EntryList(t: Text, functions: seq<nat>, insns: seq<Insn>, entries: seq<nat>) {
    SortedBy(entries, AtMost) && entries != [] && forall e :: e in entries <==> Entry(t, functions, insns, e)
  }

  ghost predicate Indexed(insns: seq<Insn>, insnAt: map<nat, nat>) {
    && (forall a :: a in insnAt <==> exists k | 0 <= k < |insns| :: insns[k].addr == a)
    && (forall a | a in insnAt :: insnAt[a] < |insns| && insns[insnAt[a]].addr == a)
  }

  /** The guard loop. */
  method FindHandlers(t: Text, functions: seq<nat>, insns: seq<Insn>, entries: seq<nat>, insnAt: map<nat, nat>)
    returns (found: map<nat, (nat, nat)>)
    requires Adjacent(insns) && EntryList(t, functions, insns, entries) && Indexed(insns, insnAt)
    ensures FoundUpTo(t, functions, insns, |insns|, found)
  {
    found := map[];
    for idx := 0 to |insns|
      invariant FoundUpTo(t, functions, insns, idx, found)
    {
      var guarded := Guarded(t, functions, insns, entries, insnAt, idx);
      if guarded.None? {
        TurnDone(t, functions, insns, idx, found);
      } else {
        var (start, dispatch) := guarded.value;
        var target := insns[start].addr;
        var size; ghost var m;
        size, m := BodySize(insns, start);
        ghost var j: nat :| Dispatches(insns, idx, j) && dispatch == insns[j].addr;
        assert Guards(insns, idx, j, target) && BodyAt(insns, start, m, target);
        if target in found {
          TurnDone(t, functions, insns, idx, found);
        } else {
          NewHandler(t, functions, insns, idx, j, start, m, found, target);
          FoundMore(t, functions, insns, idx, j, found, target, (size, dispatch));
          found := found[target := (size, dispatch)];
        }
      }
    }
  }

  /** The tests of one turn: where the target lies and where its guard dispatches. */
  method Guarded(t: Text, functions: seq<nat>, insns: seq<Insn>, entries: seq<nat>, insnAt: map<nat, nat>, idx: nat)
    returns (r: Option<(nat, nat)>)
    requires idx < |insns| && Adjacent(insns) && EntryList(t, functions, insns, entries) && Indexed(insns, insnAt)
    ensures r.None? ==> forall j: nat, a | Guards(insns, idx, j, a) :: !Outside(t, functions, insns, a)
    ensures r.Some? ==> r.value.0 < |insns| && Outside(t, functions, insns, insns[r.value.0].addr)
    ensures r.Some? ==> insns[idx].flow.Cbranch? && insns[idx].target == Some(insns[r.value.0].addr)
    ensures r.Some? ==> exists j: nat :: Dispatches(insns, idx, j) && r.value.1 == insns[j].addr
  {
    var inst := insns[idx];
    if !inst.flow.Cbranch? || inst.target.None? { return None; }
    var target := inst.target.value;
    if !InText(t, target) { return None; }
    var outside := OutsideAllSpans(t, functions, insns, entries, target);
    if !outside { return None; }
    var dispatch := FindDispatch(insns, idx);
    if dispatch.None? || target !in insnAt { return None; }
    ghost var j: nat :| Dispatches(insns, idx, j);
    r := Some((insnAt[target], dispatch.value));
  }

  method OutsideAllSpans(t: Text, functions: seq<nat>, insns: seq<Insn>, entries: seq<nat>, addr: nat) returns (b: bool)
    requires EntryList(t, functions, insns, entries)
    ensures b <==> forall e | Entry(t, functions, insns, e) :: addr < e
    ensures exists e :: Entry(t, functions, insns, e)
  {
    var n := PartitionPoint(entries, addr);
    b := n == 0;
    assert entries[0] in entries;
    assert forall e | e in entries :: Entry(t, functions, insns, e);
    assert b ==> forall i | 0 <= i < |entries| :: addr < entries[i];
  }

  /** One more turn is caught when every outside target it guards is in the map. */
  lemma TurnDone(t: Text, functions: seq<nat>, insns: seq<Insn>, idx: nat, found: map<nat, (nat, nat)>)
    requires FoundUpTo(t, functions, insns, idx, found) && Caught(t, functions, insns, idx, found)
    ensures FoundUpTo(t, functions, insns, idx + 1, found)
  {
    forall i: nat | i < idx + 1 ensures Caught(t, functions, insns, i, found) {}
    forall a | a in found ensures GuardedBefore(insns, idx + 1, a) { GuardedStill(insns, idx, a); }
  }

  lemma GuardedStill(insns: seq<Insn>, n: nat, a: nat)
    requires GuardedBefore(insns, n, a)
    ensures GuardedBefore(insns, n + 1, a)
  {
  }

  lemma FoundMore(t: Text, functions: seq<nat>, insns: seq<Insn>, idx: nat, j: nat, found: map<nat, (nat, nat)>, target: nat, x: (nat, nat))
    requires FoundUpTo(t, functions, insns, idx, found) && Guards(insns, idx, j, target) && target !in found
    requires IsHandler(t, functions, insns, Handler(target, x.0, x.1))
    ensures FoundUpTo(t, functions, insns, idx + 1, found[target := x])
  {
    var more := found[target := x];
    forall i: nat | i < idx + 1 ensures Caught(t, functions, insns, i, more) {
      assert i < idx ==> Caught(t, functions, insns, i, found);
    }
    forall a | a in more ensures GuardedBefore(insns, idx + 1, a) {
      if a in found { GuardedStill(insns, idx, a); }
    }
  }

  predicate NotAfter(a: Handler, b: Handler) {
    a.addr < b.addr || (a.addr == b.addr && (a.size < b.size || (a.size == b.size && a.dispatch <= b.dispatch)))
  }

  /** The map's entries, in whatever order it gives them, sorted. */
  method SortedHandlers(found: map<nat, (nat, nat)>) returns (handlers: seq<Handler>)
    ensures forall h :: h in handlers <==> h.addr in found && found[h.addr] == (h.size, h.dispatch)
    ensures SortedBy(handlers, NotAfter) && Distinct(handlers)
  {
    var all: seq<Handler>, left := [], found.Keys;
    while left != {}
      invariant left <= found.Keys && Distinct(all)
      invariant forall h :: h in all <==> h.addr in found.Keys - left && found[h.addr] == (h.size, h.dispatch)
      decreases |left|
    {
      var a :| a in left;
      left := left - {a};
      all := all + [Handler(a, found[a].0, found[a].1)];
    }
    handlers := SortBy(all, NotAfter);
    SortBySorted(all, NotAfter);
    DistinctRearranged(all, handlers);
    SameMembers(all, handlers);
  }

  lemma AllFound(lift: Lifter, t: Text, functions: seq<nat>, insns: seq<Insn>, found: map<nat, (nat, nat)>, handlers: seq<Handler>)
    requires Tiles(lift, insns, t.va, t.va + t.length) && FoundUpTo(t, functions, insns, |insns|, found)
    requires forall h :: h in handlers <==> h.addr in found && found[h.addr] == (h.size, h.dispatch)
    requires SortedBy(handlers, NotAfter) && Distinct(handlers)
    ensures forall h :: h in handlers <==> IsHandler(t, functions, insns, h)
    ensures forall i, j | 0 <= i < j < |handlers| :: handlers[i].addr < handlers[j].addr
  {
    forall h | IsHandler(t, functions, insns, h) ensures h in handlers {
      var i: nat, j: nat :| EarliestGuard(insns, i, j, h.addr);
      assert Guards(insns, i, j, h.addr) && Caught(t, functions, insns, i, found);
      OneHandler(lift, t, functions, insns, h, Handler(h.addr, found[h.addr].0, found[h.addr].1));
    }
    forall i, j | 0 <= i < j < |handlers| ensures handlers[i].addr < handlers[j].addr {
      assert handlers[i] in handlers && handlers[j] in handlers;
      assert NotAfter(handlers[i], handlers[j]) && handlers[i] != handlers[j];
    }
  }

  // ---------- Over the lifter alone ----------

  function StepAt(lift: Lifter, a: nat): Step {
    match lift(a) case None => 1 case Some((step, _)) => step
  }

  function OpsAt(lift: Lifter, a: nat): seq<Op> {
    match lift(a) case None => [] case Some((_, ops)) => ops
  }

  /** The address of the `n`-th instruction after the one at `a`. */
  function After(lift: Lifter, a: nat, n: nat): (r: nat)
    ensures r >= a + n
  {
    if n == 0 then a else After(lift, a, n - 1) + StepAt(lift, After(lift, a, n - 1))
  }

  const CALLS: set<int> := {CPUI_CALL, CPUI_CALLIND}
  const JUMPS: set<int> := {CPUI_BRANCH, CPUI_CBRANCH, CPUI_BRANCHIND, CPUI_RETURN}

  ghost predicate Transfers(op: Op) { op.opcode in CALLS + JUMPS }

  ghost predicate Plain(ops: seq<Op>) {
    forall k | 0 <= k < |ops| :: !Transfers(ops[k])
  }

  /** The last control op has one of these opcodes. */
  ghost predicate LastIn(ops: seq<Op>, codes: set<int>) {
    exists k | 0 <= k < |ops| :: ops[k].opcode in codes && forall m | k < m < |ops| :: !Transfers(ops[m])
  }

  /** A direct jump or call to an address in memory. */
  ghost predicate Direct(op: Op, x: nat) {
    && (op.opcode == CPUI_BRANCH || op.opcode == CPUI_CBRANCH || op.opcode == CPUI_CALL)
    && |op.inputs| > 0 && op.inputs[0].space == Ram && op.inputs[0].offset == x
  }

  /** `x` is the target of the last direct jump or call. */
  ghost predicate LastDirect(ops: seq<Op>, x: nat) {
    exists k | 0 <= k < |ops| :: Direct(ops[k], x) && forall m, y: nat | k < m < |ops| :: !Direct(ops[m], y)
  }

  lemma {:induction false} FlowMeans(ops: seq<Op>)
    ensures FlowOfAll(ops).Fallthrough? <==> Plain(ops)
    ensures FlowOfAll(ops).Cbranch? <==> LastIn(ops, {CPUI_CBRANCH})
    ensures FlowOfAll(ops).Branchind? <==> LastIn(ops, {CPUI_BRANCHIND})
    ensures Terminal(FlowOfAll(ops)) <==> LastIn(ops, JUMPS)
  {
    if ops != [] {
      FlowMeans(ops[..|ops| - 1]);
      LastInLast(ops, {CPUI_CBRANCH});
      LastInLast(ops, {CPUI_BRANCHIND});
      LastInLast(ops, JUMPS);
    }
  }

  lemma LastInLast(ops: seq<Op>, codes: set<int>)
    requires ops != [] && codes <= CALLS + JUMPS
    ensures var last := ops[|ops| - 1];
      LastIn(ops, codes) <==> if Transfers(last) then last.opcode in codes else LastIn(ops[..|ops| - 1], codes)
  {
    var n := |ops| - 1;
    var init, last := ops[..n], ops[n];
    assert forall k | 0 <= k < n :: init[k] == ops[k];
    if LastIn(ops, codes) && !Transfers(last) {
      var k :| 0 <= k < |ops| && ops[k].opcode in codes && forall m | k < m < |ops| :: !Transfers(ops[m]);
      assert init[k].opcode in codes;
    }
    if !Transfers(last) && LastIn(init, codes) {
      var k :| 0 <= k < |init| && init[k].opcode in codes && forall m | k < m < |init| :: !Transfers(init[m]);
      assert ops[k].opcode in codes;
    }
  }

  lemma {:induction false} TargetMeans(ops: seq<Op>, x: nat)
    ensures TargetOfAll(ops) == Some(x) <==> LastDirect(ops, x)
    ensures TargetOfAll(ops) == None <==> forall m, y: nat | 0 <= m < |ops| :: !Direct(ops[m], y)
  {
    if ops != [] {
      var n := |ops| - 1;
      TargetMeans(ops[..n], x);
      assert forall y: nat :: Direct(ops[n], y) <==> TargetOf(ops[n]) == Some(y);
      if TargetOf(ops[n]).None? {
        assert LastDirect(ops, x) <==> LastDirect(ops[..n], x);
      } else {
        assert Direct(ops[n], TargetOf(ops[n]).value);
      }
    }
  }

  /** An instruction the scan of the text meets. */
  ghost predicate Boundary(lift: Lifter, t: Text, a: nat) {
    a < t.va + t.length && exists n: nat :: a == After(lift, t.va, n)
  }

  ghost predicate Marked(t: Text, a: nat) {
    && a + 4 <= t.va + t.length && t.va <= a && t.offset + (a - t.va) + 4 <= |t.buffer|
    && t.buffer[t.offset + (a - t.va)..][..4] == [0xf3, 0x0f, 0x1e, 0xfa]
  }

  ghost predicate EntryAt(lift: Lifter, t: Text, functions: seq<nat>, e: nat) {
    t.va <= e < t.va + t.length && (e in functions || (Boundary(lift, t, e) && Marked(t, e)))
  }

  /** A conditional branch to `x` at `g`, with an indirect jump as the `n`-th instruction after it and
      at most 32 instructions without control flow between. */
  ghost predicate GuardAt(lift: Lifter, t: Text, g: nat, n: nat, x: nat) {
    && 1 <= n <= 33 && Boundary(lift, t, g) && Boundary(lift, t, After(lift, g, n))
    && LastIn(OpsAt(lift, g), {CPUI_CBRANCH}) && LastDirect(OpsAt(lift, g), x)
    && LastIn(OpsAt(lift, After(lift, g, n)), {CPUI_BRANCHIND})
    && forall k: nat | 0 < k < n :: PlainAt(lift, g, k)
  }

  ghost predicate PlainAt(lift: Lifter, g: nat, k: nat) { Plain(OpsAt(lift, After(lift, g, k))) }

  /** The `m` instructions from `a`: none but the last jumps or takes them past 256 bytes, and
      the last does, or ends the text. */
  ghost predicate ExtentAt(lift: Lifter, t: Text, a: nat, m: nat) {
    && m > 0 && After(lift, a, m - 1) < t.va + t.length
    && (forall k: nat | k < m - 1 :: RunsOn(lift, a, k))
    && (!RunsOn(lift, a, m - 1) || After(lift, a, m) >= t.va + t.length)
  }

  ghost predicate RunsOn(lift: Lifter, a: nat, k: nat) {
    !LastIn(OpsAt(lift, After(lift, a, k)), JUMPS) && After(lift, a, k + 1) - a <= 256
  }

  /** A default handler, said of the lifter and the bytes: at an instruction of the text before every
      entry, dispatched by its earliest guard, and extending to its first jump. */
  ghost predicate HandlerAt(lift: Lifter, t: Text, functions: seq<nat>, h: Handler) {
    && Boundary(lift, t, h.addr) && t.va <= h.addr
    && (exists e :: EntryAt(lift, t, functions, e)) && (forall e | EntryAt(lift, t, functions, e) :: h.addr < e)
    && (exists g: nat, n: nat :: FirstGuard(lift, t, g, n, h.addr) && h.dispatch == After(lift, g, n))
    && (exists m: nat :: ExtentAt(lift, t, h.addr, m) && h.size == After(lift, h.addr, m) - h.addr)
  }

  ghost predicate FirstGuard(lift: Lifter, t: Text, g: nat, n: nat, x: nat) {
    GuardAt(lift, t, g, n, x) && forall g': nat, n': nat | g' < g :: !GuardAt(lift, t, g', n', x)
  }

  /** The scan of the text, to its end. */
  ghost predicate Scanned(lift: Lifter, t: Text, insns: seq<Insn>) {
    Tiles(lift, insns, t.va, t.va + t.length) && EndOf(insns, t.va) >= t.va + t.length
  }

  lemma {:induction false} AfterIndex(lift: Lifter, insns: seq<Insn>, start: nat, stop: nat, i: nat, n: nat)
    requires Tiles(lift, insns, start, stop) && i < |insns| && i + n <= |insns|
    ensures After(lift, insns[i].addr, n) == if i + n < |insns| then insns[i + n].addr else EndOf(insns, start)
    decreases n
  {
    if n > 0 {
      AfterIndex(lift, insns, start, stop, i, n - 1);
      var k := i + n - 1;
      assert Lifted(lift, insns, k, stop);
      if i + n < |insns| { assert Joined(insns, k); }
    }
  }

  lemma {:induction false} AfterAfter(lift: Lifter, a: nat, m: nat, n: nat)
    ensures After(lift, After(lift, a, m), n) == After(lift, a, m + n)
    decreases n
  {
    if n > 0 { AfterAfter(lift, a, m, n - 1); }
  }

  lemma AfterGrows(lift: Lifter, a: nat, m: nat, n: nat)
    requires m <= n
    ensures After(lift, a, m) + (n - m) <= After(lift, a, n)
  {
    AfterAfter(lift, a, m, n - m);
  }

  /** The instructions of the text are the records of its scan. */
  lemma BoundaryIsRecord(lift: Lifter, t: Text, insns: seq<Insn>, a: nat)
    requires Scanned(lift, t, insns)
    ensures Boundary(lift, t, a) <==> exists k | 0 <= k < |insns| :: insns[k].addr == a
  {
    if insns == [] {
      assert t.length == 0;
    } else {
      AfterIndex(lift, insns, t.va, t.va + t.length, 0, |insns|);
      if Boundary(lift, t, a) {
        var n: nat :| a == After(lift, t.va, n);
        if n >= |insns| { AfterGrows(lift, t.va, |insns|, n); }
        AfterIndex(lift, insns, t.va, t.va + t.length, 0, n);
      }
      forall k | 0 <= k < |insns| ensures Boundary(lift, t, insns[k].addr) {
        assert Lifted(lift, insns, k, t.va + t.length);
        AfterIndex(lift, insns, t.va, t.va + t.length, 0, k);
      }
    }
  }

  /** The scanner's guards are those of the lifter. */
  lemma GuardIsLifted(lift: Lifter, t: Text, insns: seq<Insn>, i: nat, n: nat, x: nat)
    requires Scanned(lift, t, insns) && i < |insns|
    ensures GuardAt(lift, t, insns[i].addr, n, x) <==> i + n < |insns| && Guards(insns, i, i + n, x)
    ensures i + n < |insns| ==> After(lift, insns[i].addr, n) == insns[i + n].addr
  {
    if i + n < |insns| {
      AfterIndex(lift, insns, t.va, t.va + t.length, i, n);
      GuardEnds(lift, t, insns, i, i + n, x);
      forall k: nat | k < n ensures PlainAt(lift, insns[i].addr, k) <==> insns[i + k].flow.Fallthrough? {
        PlainHere(lift, t, insns, i, k);
      }
      GuardForm(lift, t, insns, i, n, x);
    } else {
      PastTheEnd(lift, t, insns, i, n);
    }
  }

  lemma PastTheEnd(lift: Lifter, t: Text, insns: seq<Insn>, i: nat, n: nat)
    requires Scanned(lift, t, insns) && i < |insns| <= i + n
    ensures !Boundary(lift, t, After(lift, insns[i].addr, n))
  {
    AfterIndex(lift, insns, t.va, t.va + t.length, i, |insns| - i);
    AfterGrows(lift, insns[i].addr, |insns| - i, n);
  }

  lemma GuardEnds(lift: Lifter, t: Text, insns: seq<Insn>, i: nat, j: nat, x: nat)
    requires Scanned(lift, t, insns) && i < |insns| && j < |insns|
    ensures Boundary(lift, t, insns[i].addr) && Boundary(lift, t, insns[j].addr)
    ensures insns[i].flow.Cbranch? <==> LastIn(OpsAt(lift, insns[i].addr), {CPUI_CBRANCH})
    ensures insns[i].target == Some(x) <==> LastDirect(OpsAt(lift, insns[i].addr), x)
    ensures insns[j].flow.Branchind? <==> LastIn(OpsAt(lift, insns[j].addr), {CPUI_BRANCHIND})
  {
    BoundaryIsRecord(lift, t, insns, insns[i].addr);
    BoundaryIsRecord(lift, t, insns, insns[j].addr);
    RecordMeans(lift, t, insns, i, x);
    RecordMeans(lift, t, insns, j, x);
  }

  lemma RecordMeans(lift: Lifter, t: Text, insns: seq<Insn>, i: nat, x: nat)
    requires Scanned(lift, t, insns) && i < |insns|
    ensures var ops, insn := OpsAt(lift, insns[i].addr), insns[i];
      && (insn.flow.Fallthrough? <==> Plain(ops)) && (insn.flow.Cbranch? <==> LastIn(ops, {CPUI_CBRANCH}))
      && (insn.flow.Branchind? <==> LastIn(ops, {CPUI_BRANCHIND})) && (Terminal(insn.flow) <==> LastIn(ops, JUMPS))
      && (insn.target == Some(x) <==> LastDirect(ops, x))
  {
    assert Lifted(lift, insns, i, t.va + t.length);
    FlowMeans(OpsAt(lift, insns[i].addr));
    TargetMeans(OpsAt(lift, insns[i].addr), x);
  }

  lemma PlainHere(lift: Lifter, t: Text, insns: seq<Insn>, i: nat, k: nat)
    requires Scanned(lift, t, insns) && i + k < |insns|
    ensures PlainAt(lift, insns[i].addr, k) <==> insns[i + k].flow.Fallthrough?
  {
    AfterNext(lift, t, insns, i, k);
    RecordMeans(lift, t, insns, i + k, 0);
  }

  lemma GuardForm(lift: Lifter, t: Text, insns: seq<Insn>, i: nat, n: nat, x: nat)
    requires i + n < |insns| && After(lift, insns[i].addr, n) == insns[i + n].addr
    requires forall k: nat | k < n :: PlainAt(lift, insns[i].addr, k) <==> insns[i + k].flow.Fallthrough?
    requires Boundary(lift, t, insns[i].addr) && Boundary(lift, t, insns[i + n].addr)
    requires insns[i].flow.Cbranch? <==> LastIn(OpsAt(lift, insns[i].addr), {CPUI_CBRANCH})
    requires insns[i].target == Some(x) <==> LastDirect(OpsAt(lift, insns[i].addr), x)
    requires insns[i + n].flow.Branchind? <==> LastIn(OpsAt(lift, insns[i + n].addr), {CPUI_BRANCHIND})
    ensures GuardAt(lift, t, insns[i].addr, n, x) <==> Guards(insns, i, i + n, x)
  {
    if forall k: nat | 0 < k < n :: PlainAt(lift, insns[i].addr, k) {
      forall k | i < k < i + n ensures insns[k].flow.Fallthrough? {
        assert PlainAt(lift, insns[i].addr, k - i);
      }
    }
  }

  /** The earliest guard of a target, over the records and over the lifter. */
  lemma FirstGuardIsLifted(lift: Lifter, t: Text, insns: seq<Insn>, i: nat, n: nat, x: nat)
    requires Scanned(lift, t, insns) && i < |insns|
    ensures FirstGuard(lift, t, insns[i].addr, n, x) <==> i + n < |insns| && EarliestGuard(insns, i, i + n, x)
  {
    GuardIsLifted(lift, t, insns, i, n, x);
    if FirstGuard(lift, t, insns[i].addr, n, x) {
      forall i': nat, j': nat | i' < i ensures !Guards(insns, i', j', x) {
        if Guards(insns, i', j', x) {
          Ascending(lift, insns, t.va, t.va + t.length, i', i);
          GuardIsLifted(lift, t, insns, i', j' - i', x);
        }
      }
    }
    if i + n < |insns| && EarliestGuard(insns, i, i + n, x) {
      forall g': nat, n': nat | g' < insns[i].addr ensures !GuardAt(lift, t, g', n', x) {
        if GuardAt(lift, t, g', n', x) { EarlierRecord(lift, t, insns, i, g', n', x); }
      }
    }
  }

  lemma EarlierRecord(lift: Lifter, t: Text, insns: seq<Insn>, i: nat, g: nat, n: nat, x: nat)
    requires Scanned(lift, t, insns) && i < |insns| && g < insns[i].addr && GuardAt(lift, t, g, n, x)
    ensures exists k: nat, j: nat :: k < i && Guards(insns, k, j, x)
  {
    BoundaryIsRecord(lift, t, insns, g);
    var k: nat :| k < |insns| && insns[k].addr == g;
    if k > i { Ascending(lift, insns, t.va, t.va + t.length, i, k); }
    GuardIsLifted(lift, t, insns, k, n, x);
    assert k < i && Guards(insns, k, k + n, x);
  }

  /** The extent of a handler, over the records and over the lifter. */
  lemma ExtentIsLifted(lift: Lifter, t: Text, insns: seq<Insn>, k: nat, m: nat)
    requires Scanned(lift, t, insns) && k < |insns|
    ensures ExtentAt(lift, t, insns[k].addr, m) <==> Body(insns, k, k + m)
    ensures Body(insns, k, k + m) ==> SizeOf(insns, k, k + m) == After(lift, insns[k].addr, m) - insns[k].addr
  {
    if m > 0 && k + m <= |insns| {
      ExtentPlaces(lift, t, insns, k, m);
      OnwardAgree(lift, t, insns, k, m);
      ExtentForm(lift, t, insns, k, m);
    } else if m > 0 {
      ExtentPast(lift, t, insns, k, m);
    }
  }

  lemma ExtentPast(lift: Lifter, t: Text, insns: seq<Insn>, k: nat, m: nat)
    requires Scanned(lift, t, insns) && k < |insns| < k + m
    ensures After(lift, insns[k].addr, m - 1) >= t.va + t.length
  {
    AfterIndex(lift, insns, t.va, t.va + t.length, k, |insns| - k);
    AfterGrows(lift, insns[k].addr, |insns| - k, m - 1);
  }

  lemma OnwardAgree(lift: Lifter, t: Text, insns: seq<Insn>, k: nat, m: nat)
    requires Scanned(lift, t, insns) && k + m <= |insns|
    ensures forall c: nat | c < m :: RunsOn(lift, insns[k].addr, c) <==> GoesOn(insns, k, k + c)
  {
    forall c: nat | c < m ensures RunsOn(lift, insns[k].addr, c) <==> GoesOn(insns, k, k + c) {
      OnwardIsLifted(lift, t, insns, k, c);
    }
  }

  lemma ExtentPlaces(lift: Lifter, t: Text, insns: seq<Insn>, k: nat, m: nat)
    requires Scanned(lift, t, insns) && k < |insns| && 0 < m && k + m <= |insns|
    ensures After(lift, insns[k].addr, m - 1) < t.va + t.length
    ensures After(lift, insns[k].addr, m) >= t.va + t.length <==> k + m == |insns|
    ensures SizeOf(insns, k, k + m) == After(lift, insns[k].addr, m) - insns[k].addr
  {
    AfterIndex(lift, insns, t.va, t.va + t.length, k, m - 1);
    AfterIndex(lift, insns, t.va, t.va + t.length, k, m);
    Covered(lift, insns, t.va, t.va + t.length, k, k + m);
    assert Lifted(lift, insns, k + m - 1, t.va + t.length);
    if k + m < |insns| { assert Lifted(lift, insns, k + m, t.va + t.length) && Joined(insns, k + m - 1); }
  }

  lemma ExtentForm(lift: Lifter, t: Text, insns: seq<Insn>, k: nat, m: nat)
    requires 0 < m && k + m <= |insns| && forall c: nat | c < m :: RunsOn(lift, insns[k].addr, c) <==> GoesOn(insns, k, k + c)
    requires After(lift, insns[k].addr, m - 1) < t.va + t.length
    requires After(lift, insns[k].addr, m) >= t.va + t.length <==> k + m == |insns|
    ensures ExtentAt(lift, t, insns[k].addr, m) <==> Body(insns, k, k + m)
  {
    assert RunsOn(lift, insns[k].addr, m - 1) <==> GoesOn(insns, k, k + (m - 1));
    if forall c: nat | c < m - 1 :: RunsOn(lift, insns[k].addr, c) {
      forall j | k <= j < k + m - 1 ensures GoesOn(insns, k, j) { assert RunsOn(lift, insns[k].addr, j - k); }
    }
  }

  lemma AfterNext(lift: Lifter, t: Text, insns: seq<Insn>, k: nat, c: nat)
    requires Scanned(lift, t, insns) && k + c < |insns|
    ensures After(lift, insns[k].addr, c) == insns[k + c].addr
    ensures After(lift, insns[k].addr, c + 1) == insns[k + c].addr + insns[k + c].length
  {
    AfterIndex(lift, insns, t.va, t.va + t.length, k, c);
    assert Lifted(lift, insns, k + c, t.va + t.length);
  }

  lemma OnwardIsLifted(lift: Lifter, t: Text, insns: seq<Insn>, k: nat, c: nat)
    requires Scanned(lift, t, insns) && k + c < |insns|
    ensures RunsOn(lift, insns[k].addr, c) <==> GoesOn(insns, k, k + c)
  {
    var a, insn := insns[k].addr, insns[k + c];
    assert After(lift, a, c) == insn.addr && After(lift, a, c + 1) == insn.addr + insn.length by { AfterNext(lift, t, insns, k, c); }
    assert Terminal(insn.flow) <==> LastIn(OpsAt(lift, insn.addr), JUMPS) by { RecordMeans(lift, t, insns, k + c, 0); }
    assert SizeOf(insns, k, k + c + 1) == insn.addr + insn.length - a by { Covered(lift, insns, t.va, t.va + t.length, k, k + c + 1); }
  }

  lemma EntryIsLifted(lift: Lifter, t: Text, functions: seq<nat>, insns: seq<Insn>, e: nat)
    requires Scanned(lift, t, insns)
    ensures EntryAt(lift, t, functions, e) <==> Entry(t, functions, insns, e)
  {
    BoundaryIsRecord(lift, t, insns, e);
    if t.va <= e && t.offset + (e - t.va) + 4 <= |t.buffer| {
      var n := t.offset + (e - t.va);
      assert t.buffer[n..][..4] == [t.buffer[n], t.buffer[n + 1], t.buffer[n + 2], t.buffer[n + 3]];
    }
  }

  lemma OutsideIsLifted(lift: Lifter, t: Text, functions: seq<nat>, insns: seq<Insn>, x: nat)
    requires Scanned(lift, t, insns)
    ensures Outside(t, functions, insns, x) <==>
      && Boundary(lift, t, x) && t.va <= x
      && (exists e :: EntryAt(lift, t, functions, e)) && forall e | EntryAt(lift, t, functions, e) :: x < e
  {
    BoundaryIsRecord(lift, t, insns, x);
    forall e ensures EntryAt(lift, t, functions, e) <==> Entry(t, functions, insns, e) {
      EntryIsLifted(lift, t, functions, insns, e);
    }
  }

  /** The reported handlers are those of the lifter and the bytes. */
  lemma HandlerIsLifted(lift: Lifter, t: Text, functions: seq<nat>, insns: seq<Insn>, h: Handler)
    requires Scanned(lift, t, insns)
    ensures IsHandler(t, functions, insns, h) <==> HandlerAt(lift, t, functions, h)
  {
    OutsideIsLifted(lift, t, functions, insns, h.addr);
    BoundaryIsRecord(lift, t, insns, h.addr);
    if Boundary(lift, t, h.addr) {
      var k: nat :| k < |insns| && insns[k].addr == h.addr;
      GuardsAgree(lift, t, insns, h.addr, h.dispatch);
      ExtentsAgree(lift, t, insns, k, h.size);
    }
  }

  lemma GuardsAgree(lift: Lifter, t: Text, insns: seq<Insn>, x: nat, d: nat)
    requires Scanned(lift, t, insns)
    ensures (exists i: nat, j: nat :: EarliestGuard(insns, i, j, x) && d == insns[j].addr)
      <==> exists g: nat, n: nat :: FirstGuard(lift, t, g, n, x) && d == After(lift, g, n)
  {
    if i: nat, j: nat :| EarliestGuard(insns, i, j, x) && d == insns[j].addr {
      FirstGuardIsLifted(lift, t, insns, i, j - i, x);
      AfterIndex(lift, insns, t.va, t.va + t.length, i, j - i);
      assert FirstGuard(lift, t, insns[i].addr, j - i, x) && d == After(lift, insns[i].addr, j - i);
    }
    if g: nat, n: nat :| FirstGuard(lift, t, g, n, x) && d == After(lift, g, n) {
      var i := GuardRecord(lift, t, insns, x, g, n);
      assert EarliestGuard(insns, i, i + n, x) && d == insns[i + n].addr;
    }
  }

  lemma GuardRecord(lift: Lifter, t: Text, insns: seq<Insn>, x: nat, g: nat, n: nat) returns (i: nat)
    requires Scanned(lift, t, insns) && FirstGuard(lift, t, g, n, x)
    ensures i + n < |insns| && EarliestGuard(insns, i, i + n, x) && insns[i + n].addr == After(lift, g, n)
  {
    BoundaryIsRecord(lift, t, insns, g);
    i :| i < |insns| && insns[i].addr == g;
    FirstGuardIsLifted(lift, t, insns, i, n, x);
    AfterIndex(lift, insns, t.va, t.va + t.length, i, n);
  }

  lemma ExtentsAgree(lift: Lifter, t: Text, insns: seq<Insn>, k: nat, size: nat)
    requires Scanned(lift, t, insns) && k < |insns|
    ensures var a := insns[k].addr;
      (exists l: nat, m: nat :: BodyAt(insns, l, m, a) && size == SizeOf(insns, l, m))
      <==> exists m: nat :: ExtentAt(lift, t, a, m) && size == After(lift, a, m) - a
  {
    var a := insns[k].addr;
    if l: nat, m: nat :| BodyAt(insns, l, m, a) && size == SizeOf(insns, l, m) {
      BodyHere(lift, t, insns, k, l, m);
      assert ExtentAt(lift, t, a, m - k) && size == After(lift, a, m - k) - a;
    }
    if m: nat :| ExtentAt(lift, t, a, m) && size == After(lift, a, m) - a {
      ExtentIsLifted(lift, t, insns, k, m);
      assert BodyAt(insns, k, k + m, a) && size == SizeOf(insns, k, k + m);
    }
  }

  lemma BodyHere(lift: Lifter, t: Text, insns: seq<Insn>, k: nat, l: nat, m: nat)
    requires Scanned(lift, t, insns) && k < |insns| && BodyAt(insns, l, m, insns[k].addr)
    ensures l == k < m && ExtentAt(lift, t, insns[k].addr, m - k)
    ensures SizeOf(insns, l, m) == After(lift, insns[k].addr, m - k) - insns[k].addr
  {
    SamePlace(lift, insns, t.va, t.va + t.length, k, l);
    ExtentIsLifted(lift, t, insns, k, m - k);
  }

  /** The scanner reports exactly the default handlers of the text, by ascending address, one
      for each target; and nothing at all when the section leaves the file. */
  method ScanSwitchDefaultHandlers(t: Text, functions: seq<nat>, lift: Lifter)
    returns (handlers: seq<Handler>, ghost insns: seq<Insn>)
    ensures Tiles(lift, insns, t.va, t.va + t.length) && EndOf(insns, t.va) >= t.va + t.length
    ensures t.offset < |t.buffer| && t.offset + t.length <= |t.buffer| ==>
      forall h :: h in handlers <==> HandlerAt(lift, t, functions, h)
    ensures t.offset >= |t.buffer| || t.offset + t.length > |t.buffer| ==> handlers == []
    ensures forall i, j | 0 <= i < j < |handlers| :: handlers[i].addr < handlers[j].addr
  {
    var scanned := SleighScanRange(lift, t.va, t.va + t.length);
    insns := scanned;
    if t.offset >= |t.buffer| || t.offset + t.length > |t.buffer| { return [], insns; }
    var insnAt := IndexInsns(scanned);
    var entries := CollectEntries(t, functions, scanned);
    if entries == [] {
      forall h ensures !HandlerAt(lift, t, functions, h) { HandlerIsLifted(lift, t, functions, insns, h); }
      return [], insns;
    }
    var found := FindHandlers(t, functions, scanned, entries, insnAt);
    handlers := SortedHandlers(found);
    AllFound(lift, t, functions, insns, found, handlers);
    forall h ensures h in handlers <==> HandlerAt(lift, t, functions, h) { HandlerIsLifted(lift, t, functions, insns, h); }
  }
}
