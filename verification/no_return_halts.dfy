/**
 * Artificial halts after calls to callees known not to return: the raw splice
 * (examples/httpd_decompile.rs:490-540) and the flag pass (examples/httpd_decompile.rs:739-771).
 * The splice adds a RETURN with the call's own sequence number; the later pass tells the halts by
 * address alone, and cannot tell them from a RETURN that was at such an address already.
 */
module NoReturnHalts {
  import opened Common
  import opened Pcode

  /** A direct call whose target is in the table. */
  predicate Hits(callees: set<nat>, op: Op) {
    op.opcode == CPUI_CALL && |op.inputs| > 0 && op.inputs[0].space.Ram? && op.inputs[0].offset in callees
  }

  /** ... that carries the sequence number its halt needs. */
  predicate Halted(callees: set<nat>, op: Op) { Hits(callees, op) && op.seqnum.Some? }

  function Halt(seqnum: SeqNum): Op { Op(CPUI_RETURN, None, [Varnode(Const, 1, 4)], Some(seqnum)) }

  /** An op of the spliced list and whether the splice put it there. */
  datatype Item = Item(op: Op, inserted: bool)

  function Tagged(callees: set<nat>, raw: seq<Op>): seq<Item> {
    if raw == [] then []
    else
      var last := raw[|raw| - 1];
      Tagged(callees, raw[..|raw| - 1]) + [Item(last, false)]
      + (if Halted(callees, last) then [Item(Halt(last.seqnum.value), true)] else [])
  }

  function OpsOf(items: seq<Item>): seq<Op> { seq(|items|, i requires 0 <= i < |items| => items[i].op) }

  /** The spliced list with the inserted ops taken out again. */
  function Erased(items: seq<Item>): seq<Op> {
    if items == [] then []
    else Erased(items[..|items| - 1]) + (if items[|items| - 1].inserted then [] else [items[|items| - 1].op])
  }

  ghost function HaltAddrs(callees: set<nat>, raw: seq<Op>): set<nat> {
    set op | op in raw && Halted(callees, op) :: op.seqnum.value.addr
  }

  /** The splice. */
  method SpliceKnownNoReturnHalts(raw: seq<Op>, callees: set<nat>, halts: set<nat>)
    returns (spliced: seq<Op>, halts': set<nat>)
    ensures spliced == OpsOf(Tagged(callees, raw))
    ensures halts' == halts + HaltAddrs(callees, raw)
  {
    if callees == {} {
      NothingToSplice(raw);
      assert HaltAddrs(callees, raw) == {};
      return raw, halts;
    }
    spliced, halts' := [], halts;
    for i := 0 to |raw|
      invariant spliced == OpsOf(Tagged(callees, raw[..i]))
      invariant halts' == halts + HaltAddrs(callees, raw[..i])
    {
      SpliceStep(callees, raw, i);
      spliced := spliced + [raw[i]];
      if Hits(callees, raw[i]) && raw[i].seqnum.Some? {
        var seqnum := raw[i].seqnum.value;
        halts' := halts' + {seqnum.addr};
        spliced := spliced + [Halt(seqnum)];
      }
    }
    assert raw[..|raw|] == raw;
  }

  lemma SpliceStep(callees: set<nat>, raw: seq<Op>, i: nat)
    requires i < |raw|
    ensures OpsOf(Tagged(callees, raw[..i + 1])) == OpsOf(Tagged(callees, raw[..i])) + [raw[i]]
      + (if Halted(callees, raw[i]) then [Halt(raw[i].seqnum.value)] else [])
    ensures HaltAddrs(callees, raw[..i + 1]) == HaltAddrs(callees, raw[..i])
      + (if Halted(callees, raw[i]) then {raw[i].seqnum.value.addr} else {})
  {
    assert raw[..i + 1][..i] == raw[..i] && raw[..i + 1] == raw[..i] + [raw[i]];
  }

  lemma {:induction false} NothingToSplice(raw: seq<Op>)
    ensures OpsOf(Tagged({}, raw)) == raw
  {
    if raw != [] {
      NothingToSplice(raw[..|raw| - 1]);
      assert OpsOf(Tagged({}, raw)) == OpsOf(Tagged({}, raw[..|raw| - 1])) + [raw[|raw| - 1]];
    }
  }

  // ---------- What the splice is, without saying how ----------

  /** A CALL with a sequence number whose first input is an address in memory and in the table. */
  ghost predicate ListedCall(callees: set<nat>, op: Op) {
    && op.opcode == CPUI_CALL && op.seqnum != None
    && exists a, size | a in callees :: op.inputs != [] && op.inputs[0] == Varnode(Ram, a, size)
  }

  lemma HaltedIsListed(callees: set<nat>, op: Op)
    ensures Halted(callees, op) <==> ListedCall(callees, op)
  {
    if Halted(callees, op) { assert op.inputs[0] == Varnode(Ram, op.inputs[0].offset, op.inputs[0].size); }
  }

  /** An inserted op stands right after such a call: a RETURN of the constant 1 in four bytes,
      with the call's own sequence number. */
  ghost predicate InsertedRight(callees: set<nat>, items: seq<Item>, i: nat)
    requires i < |items|
  {
    items[i].inserted ==>
      i > 0 && !items[i - 1].inserted && ListedCall(callees, items[i - 1].op)
      && items[i].op == Op(CPUI_RETURN, None, [Varnode(Const, 1, 4)], items[i - 1].op.seqnum)
  }

  /** Every original such call is followed by an inserted op. */
  ghost predicate CallHalts(callees: set<nat>, items: seq<Item>, i: nat)
    requires i < |items|
  {
    !items[i].inserted && ListedCall(callees, items[i].op) ==> i + 1 < |items| && items[i + 1].inserted
  }

  ghost predicate Conservative(callees: set<nat>, raw: seq<Op>, items: seq<Item>) {
    && Erased(items) == raw
    && forall i | 0 <= i < |items| :: InsertedRight(callees, items, i) && CallHalts(callees, items, i)
  }

  lemma ErasedConcat(a: seq<Item>, x: Item)
    ensures Erased(a + [x]) == Erased(a) + (if x.inserted then [] else [x.op])
  {
    assert (a + [x])[..|a|] == a;
  }

  lemma {:induction false} TaggedConservative(callees: set<nat>, raw: seq<Op>)
    ensures Conservative(callees, raw, Tagged(callees, raw))
    decreases |raw|
  {
    if raw != [] {
      var n := |raw| - 1;
      var last, before := raw[n], Tagged(callees, raw[..n]);
      HaltedIsListed(callees, last);
      TaggedConservative(callees, raw[..n]);
      ErasedConcat(before, Item(last, false));
      assert raw == raw[..n] + [last];
      var items := Tagged(callees, raw);
      if Halted(callees, last) {
        ErasedConcat(before + [Item(last, false)], Item(Halt(last.seqnum.value), true));
      } else {
        assert items == before + [Item(last, false)];
      }
      forall i | 0 <= i < |items| ensures InsertedRight(callees, items, i) && CallHalts(callees, items, i) {
        if i < |before| { assert InsertedRight(callees, before, i) && CallHalts(callees, before, i); }
      }
    }
  }

  /** The last original op of a conservative list, with its halt if it has one, comes last. */
  lemma ConservativeTail(callees: set<nat>, raw: seq<Op>, items: seq<Item>)
    requires Conservative(callees, raw, items) && items != []
    ensures raw != []
    ensures var last := raw[|raw| - 1];
      if items[|items| - 1].inserted
      then |items| >= 2 && Halted(callees, last) && items[|items| - 2..] == [Item(last, false), Item(Halt(last.seqnum.value), true)]
           && Conservative(callees, raw[..|raw| - 1], items[..|items| - 2])
      else !Halted(callees, last) && items[|items| - 1] == Item(last, false)
           && Conservative(callees, raw[..|raw| - 1], items[..|items| - 1])
  {
    var n := |items| - 1;
    assert InsertedRight(callees, items, n) && CallHalts(callees, items, n);
    HaltedIsListed(callees, items[n].op);
    if n > 0 { HaltedIsListed(callees, items[n - 1].op); }
    ErasedConcat(items[..n], items[n]);
    assert items == items[..n] + [items[n]];
    var short := if items[n].inserted then items[..n - 1] else items[..n];
    if items[n].inserted {
      assert items[..n] == items[..n - 1] + [items[n - 1]];
      ErasedConcat(items[..n - 1], items[n - 1]);
    }
    forall i | 0 <= i < |short| ensures InsertedRight(callees, short, i) && CallHalts(callees, short, i) {
      assert InsertedRight(callees, items, i) && CallHalts(callees, items, i);
      assert InsertedRight(callees, items, i + 1);
    }
  }

  /** The splice is the one list that erases to the input and has a halt, with the call's own
      sequence number, right after each sequenced direct call to a table callee and nowhere
      else. */
  lemma SpliceExactly(callees: set<nat>, raw: seq<Op>, items: seq<Item>)
    ensures Conservative(callees, raw, items) <==> items == Tagged(callees, raw)
  {
    TaggedConservative(callees, raw);
    if Conservative(callees, raw, items) { ConservativeIsSplice(callees, raw, items); }
  }

  lemma {:induction false} ConservativeIsSplice(callees: set<nat>, raw: seq<Op>, items: seq<Item>)
    requires Conservative(callees, raw, items)
    ensures items == Tagged(callees, raw)
    decreases |items|
  {
    if items != [] {
      ConservativeTail(callees, raw, items);
      var n := |items| - 1;
      if items[n].inserted {
        ConservativeIsSplice(callees, raw[..|raw| - 1], items[..n - 1]);
        assert items == items[..n - 1] + items[n - 1..];
      } else {
        ConservativeIsSplice(callees, raw[..|raw| - 1], items[..n]);
        assert items == items[..n] + [items[n]];
      }
    }
  }

  // ---------- The flag pass ----------

  /** An injected op as the pass sees it: opcode, address and the halt flag. */
  datatype Injected = Injected(opcode: int, addr: nat, halt: bool)

  predicate Marked(halts: set<nat>, op: Injected) { op.opcode == CPUI_RETURN && op.addr in halts }

  function WarningsOf(halts: set<nat>, ops: seq<Injected>): seq<nat> {
    if ops == [] then []
    else WarningsOf(halts, ops[..|ops| - 1]) + (if Marked(halts, ops[|ops| - 1]) then [ops[|ops| - 1].addr] else [])
  }

  /** The flag pass marks the RETURNs at recorded addresses, warns once for each, and touches
      nothing else. */
  method FlagKnownNoReturnHalts(ops: array<Injected>, halts: set<nat>) returns (warnings: seq<nat>)
    modifies ops
    ensures forall i | 0 <= i < ops.Length ::
      ops[i] == if Marked(halts, old(ops[i])) then old(ops[i]).(halt := true) else old(ops[i])
    ensures warnings == WarningsOf(halts, old(ops[..]))
  {
    warnings := [];
    if halts == {} {
      NoWarnings(ops[..]);
      return;
    }
    ghost var was := ops[..];
    for i := 0 to ops.Length
      invariant forall k | 0 <= k < i :: ops[k] == if Marked(halts, was[k]) then was[k].(halt := true) else was[k]
      invariant forall k | i <= k < ops.Length :: ops[k] == was[k]
      invariant warnings == WarningsOf(halts, was[..i])
    {
      assert was[..i + 1][..i] == was[..i];
      if ops[i].opcode == CPUI_RETURN && ops[i].addr in halts {
        ops[i] := ops[i].(halt := true);
        warnings := warnings + [ops[i].addr];
      }
    }
    assert was[..ops.Length] == was;
  }

  lemma {:induction false} NoWarnings(ops: seq<Injected>)
    ensures WarningsOf({}, ops) == []
  {
    if ops != [] { NoWarnings(ops[..|ops| - 1]); }
  }

  ghost predicate ReturnsAt(halts: set<nat>, ops: seq<Injected>, i: nat) {
    i < |ops| && ops[i].opcode == CPUI_RETURN && ops[i].addr in halts
  }

  /** The warnings are the addresses at the positions `at`: those of the RETURNs at recorded
      addresses, one for each, in order. */
  ghost predicate WarnedAt(halts: set<nat>, ops: seq<Injected>, warnings: seq<nat>, at: seq<nat>) {
    && |at| == |warnings| && (forall j, k | 0 <= j < k < |at| :: at[j] < at[k])
    && (forall k | 0 <= k < |at| :: ReturnsAt(halts, ops, at[k]) && warnings[k] == ops[at[k]].addr)
    && (forall i: nat | ReturnsAt(halts, ops, i) :: i in at)
  }

  lemma {:induction false} WarnedInOrder(halts: set<nat>, ops: seq<Injected>) returns (at: seq<nat>)
    ensures WarnedAt(halts, ops, WarningsOf(halts, ops), at)
    decreases |ops|
  {
    if ops == [] {
      at := [];
    } else {
      var before, last := ops[..|ops| - 1], ops[|ops| - 1];
      at := WarnedInOrder(halts, before);
      assert ops == before + [last];
      if Marked(halts, last) {
        OneMoreWarned(halts, before, last, WarningsOf(halts, before), at);
        at := at + [|before|];
      } else {
        NoMoreWarned(halts, before, last, WarningsOf(halts, before), at);
        assert WarningsOf(halts, before) + [] == WarningsOf(halts, before);
      }
    }
  }

  lemma OneMoreWarned(halts: set<nat>, ops: seq<Injected>, op: Injected, warnings: seq<nat>, at: seq<nat>)
    requires WarnedAt(halts, ops, warnings, at) && Marked(halts, op)
    ensures WarnedAt(halts, ops + [op], warnings + [op.addr], at + [|ops|])
  {
    forall k | 0 <= k < |at| ensures ReturnsAt(halts, ops + [op], at[k]) && (ops + [op])[at[k]] == ops[at[k]] {
      assert ReturnsAt(halts, ops, at[k]);
    }
    forall i: nat | ReturnsAt(halts, ops + [op], i) ensures i in at + [|ops|] {
      if i < |ops| { assert ReturnsAt(halts, ops, i); } else { assert (at + [|ops|])[|at|] == i; }
    }
  }

  lemma NoMoreWarned(halts: set<nat>, ops: seq<Injected>, op: Injected, warnings: seq<nat>, at: seq<nat>)
    requires WarnedAt(halts, ops, warnings, at) && !Marked(halts, op)
    ensures WarnedAt(halts, ops + [op], warnings, at)
  {
    forall k | 0 <= k < |at| ensures ReturnsAt(halts, ops + [op], at[k]) && (ops + [op])[at[k]] == ops[at[k]] {
      assert ReturnsAt(halts, ops, at[k]);
    }
    forall i: nat | ReturnsAt(halts, ops + [op], i) ensures i in at { assert ReturnsAt(halts, ops, i); }
  }

  /** The address an op is injected at (src/funcdata.rs:8926-8929): its own, or a slot past the
      function base when it carries none. */
  function InjectedAddr(base: nat, op: Op, index: nat): nat {
    if op.seqnum.Some? then op.seqnum.value.addr else base + 0x10 * index
  }

  /** The flag pass would mark the op at `i` of the spliced list. */
  predicate Flagged(base: nat, halts: set<nat>, items: seq<Item>, i: nat)
    requires i < |items|
  {
    Marked(halts, Injected(items[i].op.opcode, InjectedAddr(base, items[i].op, i), false))
  }

  lemma {:induction false} ErasedHas(items: seq<Item>)
    ensures forall i | 0 <= i < |items| && !items[i].inserted :: items[i].op in Erased(items)
    decreases |items|
  {
    if items != [] {
      ErasedHas(items[..|items| - 1]);
      assert items == items[..|items| - 1] + [items[|items| - 1]];
    }
  }

  /** Every halt is marked; and the marks are exactly the halts if and only if no original
      RETURN is injected at a halted call's address. */
  lemma MarksExactlyTheHalts(base: nat, callees: set<nat>, raw: seq<Op>)
    ensures var items, halts := Tagged(callees, raw), HaltAddrs(callees, raw);
      && (forall i | 0 <= i < |items| && items[i].inserted :: Flagged(base, halts, items, i))
      && ((forall i | 0 <= i < |items| :: Flagged(base, halts, items, i) <==> items[i].inserted) <==>
          (forall i | 0 <= i < |items| && !items[i].inserted && items[i].op.opcode == CPUI_RETURN ::
             InjectedAddr(base, items[i].op, i) !in halts))
  {
    var items, halts := Tagged(callees, raw), HaltAddrs(callees, raw);
    TaggedConservative(callees, raw);
    ErasedHas(items);
    forall i | 0 <= i < |items| && items[i].inserted ensures Flagged(base, halts, items, i) {
      assert InsertedRight(callees, items, i);
      HaltedIsListed(callees, items[i - 1].op);
      assert items[i - 1].op in raw;
    }
  }

  /** When every op carries a sequence number the condition is about the input alone: no
      RETURN of the input shares an address with a halted call. */
  lemma SequencedMarks(base: nat, callees: set<nat>, raw: seq<Op>)
    requires forall op | op in raw :: op.seqnum.Some?
    ensures var items, halts := Tagged(callees, raw), HaltAddrs(callees, raw);
      (forall i | 0 <= i < |items| :: Flagged(base, halts, items, i) <==> items[i].inserted) <==>
      forall op | op in raw && op.opcode == CPUI_RETURN :: op.seqnum.value.addr !in halts
  {
    var items, halts := Tagged(callees, raw), HaltAddrs(callees, raw);
    MarksExactlyTheHalts(base, callees, raw);
    TaggedConservative(callees, raw);
    ErasedHas(items);
    ErasedFrom(items);
    if forall i | 0 <= i < |items| && !items[i].inserted && items[i].op.opcode == CPUI_RETURN :: InjectedAddr(base, items[i].op, i) !in halts {
      forall op | op in raw && op.opcode == CPUI_RETURN ensures op.seqnum.value.addr !in halts {
        var i :| 0 <= i < |items| && !items[i].inserted && items[i].op == op;
      }
    }
  }

  lemma {:induction false} ErasedFrom(items: seq<Item>)
    ensures forall op | op in Erased(items) :: exists i | 0 <= i < |items| :: !items[i].inserted && items[i].op == op
    decreases |items|
  {
    if items != [] {
      var n := |items| - 1;
      ErasedFrom(items[..n]);
      forall op | op in Erased(items) ensures exists i | 0 <= i < |items| :: !items[i].inserted && items[i].op == op {
        if op in Erased(items[..n]) {
          var i :| 0 <= i < n && !items[..n][i].inserted && items[..n][i].op == op;
          assert !items[i].inserted && items[i].op == op;
        } else {
          assert !items[n].inserted && items[n].op == op;
        }
      }
    }
  }
}
