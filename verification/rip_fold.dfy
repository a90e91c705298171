/** The RIP-relative constant fold (examples/httpd_decompile.rs:783-850): every temporary set by INT_ADD of
    RIP and a constant becomes the constant.  Meaning is given by running ops over byte-addressed
    storage, so partially overlapping varnodes count. */
module RipFold {
  import opened Common
  import opened LittleEndian
  import opened Pcode

  const RIP := Varnode(Register, 0x288, 8)

  /** A folded temporary and the constant that replaces it. */
  type Fold = (Varnode, Varnode)

  // ---------- The rewrite ----------

  function FoldOf(op: Op): Option<Fold> {
    if op.opcode != CPUI_INT_ADD || |op.inputs| != 2 || op.output.None? then None
    else if op.inputs[0] == RIP && op.inputs[1].space.Const? then Some((op.output.value, op.inputs[1]))
    else if op.inputs[1] == RIP && op.inputs[0].space.Const? then Some((op.output.value, op.inputs[0]))
    else None
  }

  function Folds(ops: seq<Op>): seq<Fold> {
    if ops == [] then []
    else Folds(ops[..|ops| - 1]) + (if FoldOf(ops[|ops| - 1]).Some? then [FoldOf(ops[|ops| - 1]).value] else [])
  }

  /** The constant of the first fold of `v`, if `v` is folded at all. */
  function Lookup(folds: seq<Fold>, v: Varnode): Option<Varnode> {
    if folds == [] then None
    else if folds[0].0 == v then Some(folds[0].1)
    else Lookup(folds[1..], v)
  }

  predicate Dropped(folds: seq<Fold>, op: Op) {
    op.opcode == CPUI_INT_ADD && op.output.Some? && Lookup(folds, op.output.value).Some?
  }

  function Replaced(folds: seq<Fold>, v: Varnode): Varnode {
    if Lookup(folds, v).Some? then Lookup(folds, v).value else v
  }

  function ReplacedAll(folds: seq<Fold>, vs: seq<Varnode>): seq<Varnode> {
    seq(|vs|, i requires 0 <= i < |vs| => Replaced(folds, vs[i]))
  }

  function FoldWith(folds: seq<Fold>, ops: seq<Op>): seq<Op> {
    if ops == [] then []
    else
      var last := ops[|ops| - 1];
      FoldWith(folds, ops[..|ops| - 1])
      + (if Dropped(folds, last) then [] else [last.(inputs := ReplacedAll(folds, last.inputs))])
  }

  /** The pass: collect, drop, substitute. */
  method FoldRipRelativeEas(ops: seq<Op>) returns (folded: seq<Op>, count: nat)
    ensures folded == FoldWith(Folds(ops), ops) && count == |Folds(ops)|
  {
    var folds: seq<Fold> := [];
    for i := 0 to |ops|
      invariant folds == Folds(ops[..i])
    {
      assert ops[..i + 1][..i] == ops[..i];
      var fold := FoldOf(ops[i]);
      if fold.Some? { folds := folds + [fold.value]; }
    }
    assert ops[..|ops|] == ops;
    if folds == [] {
      NoFoldsNoChange(ops);
      return ops, 0;
    }
    folded, count := [], |folds|;
    for i := 0 to |ops|
      invariant folded == FoldWith(folds, ops[..i])
    {
      assert ops[..i + 1][..i] == ops[..i];
      if !Dropped(folds, ops[i]) {
        var inputs := SubstituteInputs(folds, ops[i].inputs);
        folded := folded + [ops[i].(inputs := inputs)];
      }
    }
  }

  method SubstituteInputs(folds: seq<Fold>, vs: seq<Varnode>) returns (updated: seq<Varnode>)
    ensures updated == ReplacedAll(folds, vs)
  {
    updated := [];
    for k := 0 to |vs|
      invariant updated == ReplacedAll(folds, vs)[..k]
    {
      updated := updated + [Replaced(folds, vs[k])];
    }
  }

  lemma {:induction false} NoFoldsNoChange(ops: seq<Op>)
    ensures FoldWith([], ops) == ops
  {
    if ops != [] {
      NoFoldsNoChange(ops[..|ops| - 1]);
      var last := ops[|ops| - 1];
      assert ReplacedAll([], last.inputs) == last.inputs;
      assert ops == ops[..|ops| - 1] + [last];
    }
  }

  /** `op` puts the sum of the instruction pointer and the constant `c`, in either order, into `v`. */
  ghost predicate AddsRip(op: Op, v: Varnode, c: Varnode) {
    && op.opcode == CPUI_INT_ADD && op.output == Some(v) && c.space == Const
    && (op.inputs == [Varnode(Register, 0x288, 8), c] || op.inputs == [c, Varnode(Register, 0x288, 8)])
  }

  lemma FoldOfMeans(op: Op, v: Varnode, c: Varnode)
    ensures FoldOf(op) == Some((v, c)) <==> AddsRip(op, v, c)
  {
    if |op.inputs| == 2 { assert op.inputs == [op.inputs[0], op.inputs[1]]; }
  }

  /** A varnode is folded exactly when some op of the list adds RIP and a constant into it, and
      it is then replaced by the constant of the first such op. */
  lemma LookupIsFirst(ops: seq<Op>, v: Varnode)
    ensures Lookup(Folds(ops), v).Some? <==> exists i, c | 0 <= i < |ops| :: AddsRip(ops[i], v, c)
    ensures forall i, c | 0 <= i < |ops| && AddsRip(ops[i], v, c) && (forall j, d | 0 <= j < i :: !AddsRip(ops[j], v, d)) ::
      Lookup(Folds(ops), v) == Some(c)
  {
    FirstSet(ops, v);
    forall i, c | 0 <= i < |ops| ensures FoldOf(ops[i]) == Some((v, c)) <==> AddsRip(ops[i], v, c) { FoldOfMeans(ops[i], v, c); }
    forall i | 0 <= i < |ops| ensures Sets(ops[i], v) <==> exists c :: AddsRip(ops[i], v, c) {
      if Sets(ops[i], v) { assert AddsRip(ops[i], v, FoldOf(ops[i]).value.1); }
    }
  }

  predicate Sets(op: Op, v: Varnode) { FoldOf(op).Some? && FoldOf(op).value.0 == v }

  lemma {:induction false} FirstSet(ops: seq<Op>, v: Varnode)
    ensures Lookup(Folds(ops), v).Some? <==> exists i | 0 <= i < |ops| :: Sets(ops[i], v)
    ensures forall i | 0 <= i < |ops| && Sets(ops[i], v) && (forall j | 0 <= j < i :: !Sets(ops[j], v)) ::
      Lookup(Folds(ops), v) == Some(FoldOf(ops[i]).value.1)
    decreases |ops|
  {
    if ops != [] {
      var n := |ops| - 1;
      FirstSet(ops[..n], v);
      assert forall i | 0 <= i < n :: ops[..n][i] == ops[i];
      if FoldOf(ops[n]).Some? {
        LookupAppend(Folds(ops[..n]), FoldOf(ops[n]).value, v);
      } else {
        assert Folds(ops) == Folds(ops[..n]);
      }
    }
  }

  lemma {:induction false} LookupAppend(folds: seq<Fold>, f: Fold, v: Varnode)
    ensures Lookup(folds + [f], v) ==
      if Lookup(folds, v).Some? then Lookup(folds, v) else if f.0 == v then Some(f.1) else None
  {
    if folds != [] {
      assert (folds + [f])[1..] == folds[1..] + [f];
      LookupAppend(folds[1..], f, v);
    }
  }

  // ---------- Running p-code ----------

  type Key = (Space, nat)
  type Storage = Key -> Byte

  datatype Event = Event(opcode: int, values: seq<Bytes>)

  /** Any operation but INT_ADD may compute anything from its inputs and the whole history. */
  type Evaluator = (int, seq<Bytes>, seq<Event>, nat) -> Byte

  datatype State = State(store: Storage, history: seq<Event>)

  predicate Covers(v: Varnode, k: Key) { k.0 == v.space && v.offset <= k.1 < v.offset + v.size }

  predicate Apart(v: Varnode, w: Varnode) {
    v.space != w.space || v.offset + v.size <= w.offset || w.offset + w.size <= v.offset
  }

  function ReadFrom(s: Storage, v: Varnode): (b: Bytes)
    ensures |b| == v.size
  {
    if v.space.Const? then LowBytes(v.offset, v.size)
    else seq(v.size, i requires 0 <= i < v.size => s((v.space, v.offset + i)))
  }

  function ReadAll(s: Storage, vs: seq<Varnode>): seq<Bytes> {
    seq(|vs|, i requires 0 <= i < |vs| => ReadFrom(s, vs[i]))
  }

  function WriteTo(s: Storage, v: Varnode, b: Bytes): Storage
    requires |b| == v.size
  {
    (k: Key) => if Covers(v, k) then b[k.1 - v.offset] else s(k)
  }

  function ByteOf(b: Bytes, i: nat): Byte { if i < |b| then b[i] else 0 }

  /** Little-endian addition truncated to `n` bytes. */
  function AddBytes(a: Bytes, b: Bytes, i: nat, n: nat, carry: nat): (r: Bytes)
    requires i <= n
    ensures |r| == n - i
    decreases n - i
  {
    if i == n then []
    else
      var t := ByteOf(a, i) + ByteOf(b, i) + carry;
      [t % 256] + AddBytes(a, b, i + 1, n, t / 256)
  }

  function Compute(ev: Evaluator, opcode: int, values: seq<Bytes>, history: seq<Event>, size: nat): (b: Bytes)
    ensures |b| == size
  {
    if opcode == CPUI_INT_ADD && |values| == 2 then AddBytes(values[0], values[1], 0, size, 0)
    else seq(size, i requires 0 <= i < size => ev(opcode, values, history, i))
  }

  /** One op; an op marked `silent` (one the fold will drop) leaves no event behind. */
  function Exec(ev: Evaluator, op: Op, silent: bool, st: State): State {
    var values := ReadAll(st.store, op.inputs);
    State(if op.output.None? then st.store
          else WriteTo(st.store, op.output.value, Compute(ev, op.opcode, values, st.history, op.output.value.size)),
          if silent then st.history else st.history + [Event(op.opcode, values)])
  }

  /** The original ops along `trace`, any sequence of ops the control flow may take. */
  function RunOriginal(ev: Evaluator, folds: seq<Fold>, trace: seq<Op>, st: State): State {
    if trace == [] then st
    else
      var last := trace[|trace| - 1];
      Exec(ev, last, Dropped(folds, last), RunOriginal(ev, folds, trace[..|trace| - 1], st))
  }

  function RunFolded(ev: Evaluator, trace: seq<Op>, st: State): State {
    if trace == [] then st else Exec(ev, trace[|trace| - 1], false, RunFolded(ev, trace[..|trace| - 1], st))
  }

  // ---------- The fold preserves meaning exactly when reads see the constant ----------

  predicate OnTemp(folds: seq<Fold>, k: Key) {
    exists f | f in folds :: Covers(f.0, k)
  }

  /** Same bytes everywhere but in the folded temporaries, and the same history. */
  ghost predicate Agree(folds: seq<Fold>, s: State, t: State) {
    && s.history == t.history
    && forall k: Key | !OnTemp(folds, k) :: s.store(k) == t.store(k)
  }

  /** A varnode is a folded temporary or has no byte in common with one. */
  predicate Clean(folds: seq<Fold>, v: Varnode) {
    v.space.Const? || forall f | f in folds :: v == f.0 || Apart(v, f.0)
  }

  /** The p-code ground rules the fold rests on: no constant is written, and a varnode that
      touches a folded temporary is that temporary. */
  predicate CleanOps(folds: seq<Fold>, ops: seq<Op>) {
    && (forall f | f in folds :: !f.0.space.Const?)
    && (forall op, v | op in ops && v in op.inputs :: Clean(folds, v))
    && (forall op | op in ops && op.output.Some? :: Clean(folds, op.output.value) && !op.output.value.space.Const?)
  }

  /** A retained op about to run finds its constant in every folded temporary it reads. */
  predicate SeesConstants(folds: seq<Fold>, op: Op, s: Storage) {
    Dropped(folds, op)
    || forall v | v in op.inputs && Lookup(folds, v).Some? :: ReadFrom(s, v) == ReadFrom(s, Lookup(folds, v).value)
  }

  /** ... all along the original run. */
  ghost predicate ReadsConstants(ev: Evaluator, folds: seq<Fold>, trace: seq<Op>, st: State) {
    trace != [] ==>
      && ReadsConstants(ev, folds, trace[..|trace| - 1], st)
      && SeesConstants(folds, trace[|trace| - 1], RunOriginal(ev, folds, trace[..|trace| - 1], st).store)
  }

  ghost predicate ConstantFolds(folds: seq<Fold>) {
    forall f | f in folds :: f.1.space.Const?
  }

  lemma {:induction false} FoldsAreConstant(ops: seq<Op>)
    ensures ConstantFolds(Folds(ops))
  {
    if ops != [] { FoldsAreConstant(ops[..|ops| - 1]); }
  }

  lemma {:induction false} LookupMember(folds: seq<Fold>, v: Varnode)
    requires Lookup(folds, v).Some?
    ensures (v, Lookup(folds, v).value) in folds
  {
    if folds[0].0 != v { LookupMember(folds[1..], v); }
  }

  lemma {:induction false} MemberLookup(folds: seq<Fold>, f: Fold)
    requires f in folds
    ensures Lookup(folds, f.0).Some?
  {
    if folds[0].0 != f.0 {
      assert f in folds[1..];
      MemberLookup(folds[1..], f);
    }
  }

  /** A clean varnode that is not folded reads the same in agreeing states. */
  lemma ReadAgrees(folds: seq<Fold>, v: Varnode, s: State, t: State)
    requires Agree(folds, s, t) && Clean(folds, v) && Lookup(folds, v).None?
    ensures ReadFrom(s.store, v) == ReadFrom(t.store, v)
  {
    if !v.space.Const? {
      forall f | f in folds ensures Apart(v, f.0) { MemberLookup(folds, f); }
      forall i | 0 <= i < v.size ensures ReadFrom(s.store, v)[i] == ReadFrom(t.store, v)[i] {
        assert forall f | f in folds :: !Covers(f.0, (v.space, v.offset + i));
        assert !OnTemp(folds, (v.space, v.offset + i));
      }
    }
  }

  /** The values a retained op reads before and after substitution coincide exactly when it
      sees its constants. */
  lemma ValuesAgree(folds: seq<Fold>, op: Op, s: State, t: State)
    requires Agree(folds, s, t) && ConstantFolds(folds) && !Dropped(folds, op)
    requires forall v | v in op.inputs :: Clean(folds, v)
    ensures SeesConstants(folds, op, s.store) <==>
      ReadAll(s.store, op.inputs) == ReadAll(t.store, ReplacedAll(folds, op.inputs))
  {
    var a, b := ReadAll(s.store, op.inputs), ReadAll(t.store, ReplacedAll(folds, op.inputs));
    forall i | 0 <= i < |op.inputs|
      ensures Lookup(folds, op.inputs[i]).None? ==> a[i] == b[i]
      ensures Lookup(folds, op.inputs[i]).Some? ==> b[i] == ReadFrom(s.store, Lookup(folds, op.inputs[i]).value)
    {
      var v := op.inputs[i];
      assert v in op.inputs;
      if Lookup(folds, v).None? { ReadAgrees(folds, v, s, t); } else { LookupMember(folds, v); }
    }
    if a == b {
      forall v | v in op.inputs && Lookup(folds, v).Some? ensures ReadFrom(s.store, v) == ReadFrom(s.store, Lookup(folds, v).value) {
        var i :| 0 <= i < |op.inputs| && op.inputs[i] == v;
        assert a[i] == b[i];
      }
    }
    if SeesConstants(folds, op, s.store) {
      forall i | 0 <= i < |op.inputs| ensures a[i] == b[i] {
        assert op.inputs[i] in op.inputs;
      }
    }
  }

  lemma DroppedKeeps(ev: Evaluator, folds: seq<Fold>, op: Op, s: State, t: State)
    requires Agree(folds, s, t) && Dropped(folds, op)
    ensures Agree(folds, Exec(ev, op, true, s), t)
  {
    LookupMember(folds, op.output.value);
  }

  lemma RetainedKeeps(ev: Evaluator, folds: seq<Fold>, op: Op, s: State, t: State)
    requires Agree(folds, s, t) && ReadAll(s.store, op.inputs) == ReadAll(t.store, ReplacedAll(folds, op.inputs))
    ensures Agree(folds, Exec(ev, op, false, s), Exec(ev, op.(inputs := ReplacedAll(folds, op.inputs)), false, t))
  {
  }

  /** The fold's correctness, exactly: along any trace and for any meaning of the other ops,
      the folded ops leave the same history and the same bytes outside the folded temporaries
      if and only if every retained read of a folded temporary finds its constant there. */
  lemma {:induction false} FoldExactly(ev: Evaluator, folds: seq<Fold>, trace: seq<Op>, st: State)
    requires ConstantFolds(folds) && CleanOps(folds, trace)
    ensures ReadsConstants(ev, folds, trace, st) <==>
      Agree(folds, RunOriginal(ev, folds, trace, st), RunFolded(ev, FoldWith(folds, trace), st))
    ensures RunOriginal(ev, folds, trace, st).history == RunFolded(ev, FoldWith(folds, trace), st).history ==>
      ReadsConstants(ev, folds, trace, st)
    ensures |RunOriginal(ev, folds, trace, st).history| == |RunFolded(ev, FoldWith(folds, trace), st).history|
    decreases |trace|
  {
    if trace != [] {
      var before, op := trace[..|trace| - 1], trace[|trace| - 1];
      assert CleanOps(folds, before) by { assert forall o | o in before :: o in trace; }
      FoldExactly(ev, folds, before, st);
      var s, t := RunOriginal(ev, folds, before, st), RunFolded(ev, FoldWith(folds, before), st);
      assert op in trace;
      if Dropped(folds, op) {
        assert FoldWith(folds, trace) == FoldWith(folds, before);
        if Agree(folds, s, t) { DroppedKeeps(ev, folds, op, s, t); }
      } else {
        var op' := op.(inputs := ReplacedAll(folds, op.inputs));
        var after := FoldWith(folds, trace);
        assert after == FoldWith(folds, before) + [op'];
        assert after[..|after| - 1] == FoldWith(folds, before);
        RetainedStep(ev, folds, op, s, t);
      }
    }
  }

  lemma RetainedStep(ev: Evaluator, folds: seq<Fold>, op: Op, s: State, t: State)
    requires ConstantFolds(folds) && !Dropped(folds, op) && |s.history| == |t.history|
    requires forall v | v in op.inputs :: Clean(folds, v)
    ensures var s' := Exec(ev, op, false, s);
      var t' := Exec(ev, op.(inputs := ReplacedAll(folds, op.inputs)), false, t);
      && (s'.history == t'.history ==> s.history == t.history)
      && (Agree(folds, s, t) && s'.history == t'.history ==> SeesConstants(folds, op, s.store))
      && (Agree(folds, s, t) && SeesConstants(folds, op, s.store) ==> Agree(folds, s', t'))
  {
    var s' := Exec(ev, op, false, s);
    var t' := Exec(ev, op.(inputs := ReplacedAll(folds, op.inputs)), false, t);
    if s'.history == t'.history {
      assert s.history == s'.history[..|s.history|] == t'.history[..|t.history|] == t.history;
      assert s'.history[|s.history|] == t'.history[|t.history|];
    }
    if Agree(folds, s, t) {
      ValuesAgree(folds, op, s, t);
      if SeesConstants(folds, op, s.store) { RetainedKeeps(ev, folds, op, s, t); }
    }
  }

  // ---------- The condition on the ops ----------

  predicate RipZero(s: Storage) {
    forall b | b in ReadFrom(s, RIP) :: b == 0
  }

  /** No op writes to RIP. */
  predicate RipKept(ops: seq<Op>) {
    forall op | op in ops && op.output.Some? :: Apart(op.output.value, RIP)
  }

  /** `b` cut or filled up with zeros to `n` bytes. */
  function Sized(b: Bytes, n: nat): (r: Bytes)
    ensures |r| == n && (|b| == n ==> r == b)
  {
    seq(n, i requires 0 <= i < n => ByteOf(b, i))
  }

  function ConstantBytes(c: Varnode): Bytes { LowBytes(c.offset, c.size) }

  /** The op that wrote `v` last. */
  function LastWriter(trace: seq<Op>, v: Varnode): (w: Option<Op>)
    ensures w.Some? ==> w.value in trace && w.value.output == Some(v)
  {
    if trace == [] then None
    else if trace[|trace| - 1].output == Some(v) then Some(trace[|trace| - 1])
    else LastWriter(trace[..|trace| - 1], v)
  }

  /** `w` adds a constant to RIP, and the sum is the one the fold puts in for `v`. */
  predicate GivesConstant(folds: seq<Fold>, w: Op, v: Varnode)
    requires Lookup(folds, v).Some?
  {
    FoldOf(w).Some? && Sized(ConstantBytes(FoldOf(w).value.1), v.size) == ConstantBytes(Lookup(folds, v).value)
  }

  predicate SureRead(folds: seq<Fold>, before: seq<Op>, v: Varnode)
    requires Lookup(folds, v).Some?
  {
    LastWriter(before, v).Some? && GivesConstant(folds, LastWriter(before, v).value, v)
  }

  predicate SureAt(folds: seq<Fold>, before: seq<Op>, op: Op) {
    Dropped(folds, op) || forall v | v in op.inputs && Lookup(folds, v).Some? :: SureRead(folds, before, v)
  }

  /** Every retained read of a folded temporary finds it written last by a fold with the same
      constant. */
  predicate SureReads(folds: seq<Fold>, trace: seq<Op>) {
    forall k | 0 <= k < |trace| :: SureAt(folds, trace[..k], trace[k])
  }

  lemma {:induction false} AddZeros(a: Bytes, b: Bytes, i: nat, n: nat)
    requires i <= n && (forall k | 0 <= k < |a| :: a[k] == 0)
    ensures AddBytes(a, b, i, n, 0) == Sized(b, n)[i..] && AddBytes(b, a, i, n, 0) == Sized(b, n)[i..]
    decreases n - i
  {
    if i < n {
      AddZeros(a, b, i + 1, n);
      assert Sized(b, n)[i..] == [ByteOf(b, i)] + Sized(b, n)[i + 1..];
    }
  }

  lemma WriteApart(s: Storage, v: Varnode, b: Bytes, w: Varnode)
    requires |b| == v.size && Apart(v, w)
    ensures ReadFrom(WriteTo(s, v, b), w) == ReadFrom(s, w)
  {
    forall i | 0 <= i < w.size ensures ReadFrom(WriteTo(s, v, b), w)[i] == ReadFrom(s, w)[i] {
      assert !Covers(v, (w.space, w.offset + i)) || w.space.Const?;
    }
  }

  lemma WriteSame(s: Storage, v: Varnode, b: Bytes)
    requires |b| == v.size && !v.space.Const?
    ensures ReadFrom(WriteTo(s, v, b), v) == b
  {
    forall i | 0 <= i < v.size ensures ReadFrom(WriteTo(s, v, b), v)[i] == b[i] {
      assert Covers(v, (v.space, v.offset + i));
    }
  }

  /** With RIP at zero a fold's own INT_ADD computes its constant. */
  lemma FoldComputes(ev: Evaluator, op: Op, s: Storage, history: seq<Event>)
    requires FoldOf(op).Some? && RipZero(s)
    ensures Compute(ev, op.opcode, ReadAll(s, op.inputs), history, op.output.value.size)
            == Sized(ConstantBytes(FoldOf(op).value.1), op.output.value.size)
  {
    var zero, c := ReadFrom(s, RIP), ReadFrom(s, FoldOf(op).value.1);
    assert forall k | 0 <= k < |zero| :: zero[k] in zero;
    AddZeros(zero, c, 0, op.output.value.size);
  }

  lemma {:induction false} RipStays(ev: Evaluator, folds: seq<Fold>, trace: seq<Op>, st: State)
    requires RipKept(trace) && RipZero(st.store)
    ensures RipZero(RunOriginal(ev, folds, trace, st).store)
    decreases |trace|
  {
    if trace != [] {
      var before, op := trace[..|trace| - 1], trace[|trace| - 1];
      assert forall o | o in before :: o in trace;
      assert op in trace;
      RipStays(ev, folds, before, st);
      var s := RunOriginal(ev, folds, before, st);
      if op.output.Some? {
        WriteApart(s.store, op.output.value, Compute(ev, op.opcode, ReadAll(s.store, op.inputs), s.history, op.output.value.size), RIP);
      }
    }
  }

  /** What one op leaves in a folded temporary. */
  lemma TempStep(ev: Evaluator, folds: seq<Fold>, op: Op, silent: bool, s: State, v: Varnode)
    requires CleanOps(folds, [op]) && Lookup(folds, v).Some?
    ensures ReadFrom(Exec(ev, op, silent, s).store, v) ==
      if op.output == Some(v) then Compute(ev, op.opcode, ReadAll(s.store, op.inputs), s.history, v.size)
      else ReadFrom(s.store, v)
  {
    assert op in [op];
    LookupMember(folds, v);
    if op.output.Some? {
      var b := Compute(ev, op.opcode, ReadAll(s.store, op.inputs), s.history, op.output.value.size);
      if op.output.value == v { WriteSame(s.store, v, b); } else { WriteApart(s.store, op.output.value, b, v); }
    }
  }

  predicate PlainWriter(w: Op) {
    FoldOf(w).Some? || w.opcode != CPUI_INT_ADD || |w.inputs| != 2
  }

  predicate AllBytes(b: Bytes, x: Byte) {
    forall i | 0 <= i < |b| :: b[i] == x
  }

  /** The bytes of a folded temporary after any run: the fold's own constant where a fold wrote
      last, what was there at the start where nothing wrote, and with an evaluator that always
      answers `x` that byte where another op wrote last. */
  lemma {:induction false} TempValue(ev: Evaluator, folds: seq<Fold>, trace: seq<Op>, st: State, v: Varnode, x: Byte)
    requires CleanOps(folds, trace) && RipKept(trace) && RipZero(st.store) && Lookup(folds, v).Some?
    ensures var b := ReadFrom(RunOriginal(ev, folds, trace, st).store, v);
      match LastWriter(trace, v)
      case None => b == ReadFrom(st.store, v)
      case Some(w) =>
        && (FoldOf(w).Some? ==> b == Sized(ConstantBytes(FoldOf(w).value.1), v.size))
        && (!FoldOf(w).Some? && PlainWriter(w) && ev == Always(x) ==> AllBytes(b, x))
    decreases |trace|
  {
    if trace != [] {
      var before, op := trace[..|trace| - 1], trace[|trace| - 1];
      assert forall o | o in before :: o in trace;
      assert op in trace;
      var s := RunOriginal(ev, folds, before, st);
      TempStep(ev, folds, op, Dropped(folds, op), s, v);
      if op.output == Some(v) {
        RipStays(ev, folds, before, st);
        if FoldOf(op).Some? { FoldComputes(ev, op, s.store, s.history); }
      } else {
        TempValue(ev, folds, before, st, v, x);
      }
    }
  }

  function Always(x: Byte): Evaluator {
    (opcode: int, values: seq<Bytes>, history: seq<Event>, i: nat) => x
  }

  /** Sure reads see their constants. */
  lemma {:induction false} SureReadsSee(ev: Evaluator, folds: seq<Fold>, trace: seq<Op>, st: State)
    requires ConstantFolds(folds) && CleanOps(folds, trace) && RipKept(trace) && RipZero(st.store)
    requires SureReads(folds, trace)
    ensures ReadsConstants(ev, folds, trace, st)
    decreases |trace|
  {
    if trace != [] {
      var n := |trace| - 1;
      var before, op := trace[..n], trace[n];
      assert forall o | o in before :: o in trace;
      assert SureReads(folds, before) by {
        assert forall k | 0 <= k < n :: before[k] == trace[k] && before[..k] == trace[..k];
      }
      SureReadsSee(ev, folds, before, st);
      assert SureAt(folds, before, op);
      if !Dropped(folds, op) {
        forall v | v in op.inputs && Lookup(folds, v).Some?
          ensures ReadFrom(RunOriginal(ev, folds, before, st).store, v) == ConstantBytes(Lookup(folds, v).value)
        {
          TempValue(ev, folds, before, st, v, 0);
        }
        forall v | v in op.inputs && Lookup(folds, v).Some? ensures Lookup(folds, v).value.space.Const? { LookupMember(folds, v); }
      }
    }
  }

  lemma {:induction false} ReadsPrefix(ev: Evaluator, folds: seq<Fold>, trace: seq<Op>, st: State, k: nat)
    requires ReadsConstants(ev, folds, trace, st) && k < |trace|
    ensures SeesConstants(folds, trace[k], RunOriginal(ev, folds, trace[..k], st).store)
    decreases |trace|
  {
    var before := trace[..|trace| - 1];
    if k < |before| {
      assert before[..k] == trace[..k] && before[k] == trace[k];
      ReadsPrefix(ev, folds, before, st, k);
    }
  }

  /** A byte no constant starts with. */
  function Other(c: Bytes): Byte { if c != [] && c[0] == 0 then 1 else 0 }

  /** A storage with RIP at zero and `x` all over `v`. */
  function Filled(v: Varnode, x: Byte): Storage {
    (k: Key) => if Covers(v, k) then x else 0
  }

  lemma FilledReads(v: Varnode, x: Byte)
    requires Apart(v, RIP) && !v.space.Const?
    ensures RipZero(Filled(v, x)) && AllBytes(ReadFrom(Filled(v, x), v), x)
  {
    var rip := ReadFrom(Filled(v, x), RIP);
    forall i | 0 <= i < |rip| ensures rip[i] == 0 { assert v.size > 0 ==> !Covers(v, (RIP.space, RIP.offset + i)); }
  }

  /** A read that is not sure goes wrong for some meaning of the other ops and some start. */
  lemma UnsureReadFails(folds: seq<Fold>, trace: seq<Op>, k: nat, v: Varnode)
    requires ConstantFolds(folds) && CleanOps(folds, trace) && RipKept(trace) && k < |trace|
    requires Lookup(folds, v).Some? && v.size > 0 && Apart(v, RIP)
    requires v in trace[k].inputs && !Dropped(folds, trace[k]) && !SureRead(folds, trace[..k], v)
    requires LastWriter(trace[..k], v).Some? ==> PlainWriter(LastWriter(trace[..k], v).value)
    ensures var x := Other(ConstantBytes(Lookup(folds, v).value));
      var st := State(Filled(v, x), []);
      RipZero(st.store) && !ReadsConstants(Always(x), folds, trace, st)
  {
    var c := Lookup(folds, v).value;
    var x := Other(ConstantBytes(c));
    var st := State(Filled(v, x), []);
    LookupMember(folds, v);
    FilledReads(v, x);
    var before := trace[..k];
    assert forall o | o in before :: o in trace;
    TempValue(Always(x), folds, before, st, v, x);
    var b := ReadFrom(RunOriginal(Always(x), folds, before, st).store, v);
    if LastWriter(before, v).None? || FoldOf(LastWriter(before, v).value).None? { assert b[0] == x; }
    assert b != ConstantBytes(c);
    if ReadsConstants(Always(x), folds, trace, st) { ReadsPrefix(Always(x), folds, trace, st, k); }
  }

  /** Every writer of a folded temporary is a fold or computes something of its own; a further
      two-input INT_ADD is excluded, as its sum may be the constant by accident. */
  predicate PlainWriters(folds: seq<Fold>, ops: seq<Op>) {
    forall op | op in ops && op.output.Some? && Lookup(folds, op.output.value).Some? :: PlainWriter(op)
  }

  lemma {:induction false} FoldedIsWritten(ops: seq<Op>)
    ensures forall f | f in Folds(ops) :: exists op | op in ops :: op.output == Some(f.0)
  {
    if ops != [] {
      var n := |ops| - 1;
      FoldedIsWritten(ops[..n]);
      assert ops == ops[..n] + [ops[n]];
    }
  }

  /** For a list that keeps RIP, whose temporaries are not empty and written plainly, the fold
      is right along a trace for every meaning of the other ops and every start with RIP at
      zero if and only if every read of a temporary that stays finds it written last by a fold
      with the same constant. */
  lemma FoldSafeExactly(ops: seq<Op>, trace: seq<Op>)
    requires forall op | op in trace :: op in ops
    requires CleanOps(Folds(ops), ops) && RipKept(ops) && PlainWriters(Folds(ops), ops)
    requires forall f | f in Folds(ops) :: f.0.size > 0
    ensures var folds := Folds(ops);
      (forall ev: Evaluator, st: State | RipZero(st.store) ::
         Agree(folds, RunOriginal(ev, folds, trace, st), RunFolded(ev, FoldWith(folds, trace), st)))
      <==> SureReads(folds, trace)
  {
    var folds := Folds(ops);
    FoldsAreConstant(ops);
    assert CleanOps(folds, trace) && RipKept(trace);
    if SureReads(folds, trace) {
      forall ev: Evaluator, st: State | RipZero(st.store)
        ensures Agree(folds, RunOriginal(ev, folds, trace, st), RunFolded(ev, FoldWith(folds, trace), st))
      {
        SureReadsSee(ev, folds, trace, st);
        FoldExactly(ev, folds, trace, st);
      }
    } else {
      var k :| 0 <= k < |trace| && !SureAt(folds, trace[..k], trace[k]);
      var v :| v in trace[k].inputs && Lookup(folds, v).Some? && !SureRead(folds, trace[..k], v);
      LookupMember(folds, v);
      FoldedIsWritten(ops);
      UnsureReadFails(folds, trace, k, v);
      var x := Other(ConstantBytes(Lookup(folds, v).value));
      FoldExactly(Always(x), folds, trace, State(Filled(v, x), []));
    }
  }

  /** Every op that writes a folded temporary is one of its folds, all with the same constant
      of the temporary's own size. */
  predicate SingleAssignment(folds: seq<Fold>, ops: seq<Op>) {
    forall op | op in ops && op.output.Some? && Lookup(folds, op.output.value).Some? ::
      FoldOf(op) == Some((op.output.value, Lookup(folds, op.output.value).value))
      && Lookup(folds, op.output.value).value.size == op.output.value.size
  }

  /** No op reads a folded temporary before the trace has written it. */
  predicate WrittenBeforeUse(folds: seq<Fold>, trace: seq<Op>) {
    forall k, v | 0 <= k < |trace| && v in trace[k].inputs && Lookup(folds, v).Some? :: LastWriter(trace[..k], v).Some?
  }

  /** Single assignment before use is enough: for a list whose folded temporaries are only ever
      set to their one constant, every run that writes them before reading them, with RIP kept
      at zero, goes the same way after folding: same history of values, same bytes outside the
      temporaries. */
  lemma FoldPreserves(ev: Evaluator, ops: seq<Op>, trace: seq<Op>, st: State)
    requires forall op | op in trace :: op in ops
    requires CleanOps(Folds(ops), ops) && SingleAssignment(Folds(ops), ops) && RipKept(ops) && RipZero(st.store)
    requires WrittenBeforeUse(Folds(ops), trace)
    ensures Agree(Folds(ops), RunOriginal(ev, Folds(ops), trace, st), RunFolded(ev, FoldWith(Folds(ops), trace), st))
    ensures forall op | op in FoldWith(Folds(ops), trace) :: op in FoldWith(Folds(ops), ops)
  {
    var folds := Folds(ops);
    FoldsAreConstant(ops);
    assert CleanOps(folds, trace) && RipKept(trace);
    forall k | 0 <= k < |trace| ensures SureAt(folds, trace[..k], trace[k]) {
      forall v | v in trace[k].inputs && Lookup(folds, v).Some? ensures SureRead(folds, trace[..k], v) {
        var w := LastWriter(trace[..k], v).value;
        assert w in trace && w in ops;
      }
    }
    SureReadsSee(ev, folds, trace, st);
    FoldExactly(ev, folds, trace, st);
    FoldedMembers(folds, trace);
    FoldedMembers(folds, ops);
  }

  function Rewritten(folds: seq<Fold>, op: Op): Op { op.(inputs := ReplacedAll(folds, op.inputs)) }

  lemma {:induction false} FoldedMembers(folds: seq<Fold>, ops: seq<Op>)
    ensures forall op | op in FoldWith(folds, ops) :: exists o | o in ops :: !Dropped(folds, o) && op == Rewritten(folds, o)
    ensures forall o | o in ops && !Dropped(folds, o) :: Rewritten(folds, o) in FoldWith(folds, ops)
    decreases |ops|
  {
    if ops != [] {
      var n := |ops| - 1;
      FoldedMembers(folds, ops[..n]);
      assert ops == ops[..n] + [ops[n]];
    }
  }

  /** After the fold no op reads a folded temporary, and none writes one exactly when all its
      writers were INT_ADDs. */
  lemma FoldedTempsGone(ops: seq<Op>, v: Varnode)
    requires Lookup(Folds(ops), v).Some? && !v.space.Const?
    ensures forall op | op in FoldWith(Folds(ops), ops) :: v !in op.inputs
    ensures (forall op | op in FoldWith(Folds(ops), ops) :: op.output != Some(v)) <==>
      forall op | op in ops && op.output == Some(v) :: op.opcode == CPUI_INT_ADD
  {
    var folds := Folds(ops);
    FoldsAreConstant(ops);
    FoldedMembers(folds, ops);
    forall op | op in FoldWith(folds, ops) ensures v !in op.inputs {
      var o :| o in ops && !Dropped(folds, o) && op == Rewritten(folds, o);
      forall i | 0 <= i < |o.inputs| ensures Replaced(folds, o.inputs[i]) != v {
        if Lookup(folds, o.inputs[i]).Some? { LookupMember(folds, o.inputs[i]); }
      }
    }
    if forall op | op in FoldWith(folds, ops) :: op.output != Some(v) {
      forall op | op in ops && op.output == Some(v) ensures op.opcode == CPUI_INT_ADD {
        assert Rewritten(folds, op).output == Some(v);
        assert Dropped(folds, op);
      }
    }
  }

  /** INT_ADD(RIP, c) into the 8-byte temporary `t`. */
  function RipAdd(t: Varnode, c: nat): Op { Op(CPUI_INT_ADD, Some(t), [RIP, Varnode(Const, c, 8)], None) }

  const T := Varnode(Unique, 0, 8)
  const COPY_T := Op(CPUI_COPY, Some(Varnode(Register, 0, 8)), [T], None)

  /** The temporary set from RIP + 1, then from RIP + 2, then copied to a register. */
  const REASSIGNED := [RipAdd(T, 1), RipAdd(T, 2), COPY_T]

  lemma ReassignedFolds()
    ensures Folds(REASSIGNED) == [(T, Varnode(Const, 1, 8)), (T, Varnode(Const, 2, 8))]
    ensures REASSIGNED[..2] == [RipAdd(T, 1), RipAdd(T, 2)]
  {
    assert REASSIGNED[..2] == [RipAdd(T, 1), RipAdd(T, 2)] && REASSIGNED[..2][..1] == [RipAdd(T, 1)];
    assert [RipAdd(T, 1)][..0] == [];
    assert Folds([RipAdd(T, 1)]) == [(T, Varnode(Const, 1, 8))];
    assert Folds(REASSIGNED[..2]) == Folds([RipAdd(T, 1)]) + [(T, Varnode(Const, 2, 8))];
  }

  lemma ReassignedRuleset()
    ensures CleanOps(Folds(REASSIGNED), REASSIGNED) && RipKept(REASSIGNED)
  {
    ReassignedFolds();
  }

  /** A wrong value read by the last retained op of a trace shows. */
  lemma WrongReadShows(ev: Evaluator, folds: seq<Fold>, trace: seq<Op>, v: Varnode, st: State)
    requires ConstantFolds(folds) && CleanOps(folds, trace) && trace != []
    requires !Dropped(folds, trace[|trace| - 1]) && v in trace[|trace| - 1].inputs && Lookup(folds, v).Some?
    requires var before := RunOriginal(ev, folds, trace[..|trace| - 1], st).store;
      ReadFrom(before, v) != ReadFrom(before, Lookup(folds, v).value)
    ensures !Agree(folds, RunOriginal(ev, folds, trace, st), RunFolded(ev, FoldWith(folds, trace), st))
  {
    FoldExactly(ev, folds, trace, st);
  }

  /** Before the copy the original temporary holds 2. */
  lemma ReassignedValue(ev: Evaluator, st: State)
    requires RipZero(st.store)
    ensures ReadFrom(RunOriginal(ev, Folds(REASSIGNED), REASSIGNED[..2], st).store, T) == LowBytes(2, 8)
  {
    ReassignedRuleset();
    ReassignedLookup();
    var before := REASSIGNED[..2];
    assert forall o | o in before :: o in REASSIGNED;
    assert LastWriter(before, T) == Some(RipAdd(T, 2));
    TempValue(ev, Folds(REASSIGNED), before, st, T, 0);
  }

  /** Without single assignment the fold is wrong: the folded copy has 1 where the original
      had 2. */
  lemma ReassignmentBreaksTheFold(ev: Evaluator, st: State)
    requires RipZero(st.store)
    ensures !Agree(Folds(REASSIGNED), RunOriginal(ev, Folds(REASSIGNED), REASSIGNED, st),
                   RunFolded(ev, FoldWith(Folds(REASSIGNED), REASSIGNED), st))
  {
    ReassignedRuleset();
    ReassignedValue(ev, st);
    ReassignedLookup();
    FoldsAreConstant(REASSIGNED);
    WrongReadShows(ev, Folds(REASSIGNED), REASSIGNED, T, st);
  }

  lemma ReassignedLookup()
    ensures Lookup(Folds(REASSIGNED), T) == Some(Varnode(Const, 1, 8))
    ensures !Dropped(Folds(REASSIGNED), COPY_T) && T in COPY_T.inputs
    ensures LowBytes(2, 8) != LowBytes(1, 8)
  {
    ReassignedFolds();
    assert LowBytes(2, 8)[0] == 2 && LowBytes(1, 8)[0] == 1;
  }
}
