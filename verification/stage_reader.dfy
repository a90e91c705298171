/**
 * The loader of projection streams (tools/stage_bisect.py:376-547), line by line, and which
 * streams it accepts.
 */
module StageReader {
  import opened Common
  import opened StageTree
  import opened StageCandidates

  datatype Event =
    | Begin(seqno: nat, node: nat)
    | End(seqno: nat, node: nat, tests: nat)
    | Snap(seqno: nat)
    | RestartMark(curstart: int)

  datatype Open = Open(seqno: nat, node: nat)
  datatype Reader = Reader(stack: seq<Open>, snapDue: bool, lastSeq: nat)

  /** One line of the stream.  The loader rejects (None) a gap in the begin numbers, an @END
      that does not match the innermost open frame, anything but that frame's @SNAP after an
      @END, and a negative restart count.  On top of its rules, a frame must be a tree child of the one around it. */
  ghost function Accept(p: Pipeline, r: Reader, ev: Event): Option<Reader> {
    match ev
    case Begin(s, n) =>
      if !r.snapDue && s == r.lastSeq + 1 && n < |p.nodes|
         && (if r.stack == [] then s == 1 && n == 0 else p.nodes[n].parent == Some(r.stack[|r.stack| - 1].node))
      then Some(Reader(r.stack + [Open(s, n)], false, s)) else None
    case End(s, n, _) =>
      if !r.snapDue && r.stack != [] && r.stack[|r.stack| - 1] == Open(s, n)
      then Some(r.(snapDue := true)) else None
    case Snap(s) =>
      if r.snapDue && r.stack != [] && r.stack[|r.stack| - 1].seqno == s
      then Some(Reader(r.stack[..|r.stack| - 1], false, r.lastSeq)) else None
    case RestartMark(c) => if r.snapDue || c < 0 then None else Some(r)
  }

  ghost function Replay(p: Pipeline, r: Reader, evs: seq<Event>): Option<Reader>
    decreases |evs|
  {
    if evs == [] then Some(r)
    else match Accept(p, r, evs[0])
         case None => None
         case Some(r') => Replay(p, r', evs[1..])
  }

  const FRESH := Reader([], false, 0)

  lemma {:induction false} ReplayConcat(p: Pipeline, r: Reader, a: seq<Event>, b: seq<Event>)
    ensures Replay(p, r, a + b) ==
            match Replay(p, r, a) case None => None case Some(r') => Replay(p, r', b)
    decreases |a|
  {
    if a == [] {
      assert a + b == b;
    } else {
      assert (a + b)[1..] == a[1..] + b;
      match Accept(p, r, a[0])
      case None =>
      case Some(r') => ReplayConcat(p, r', a[1..], b);
    }
  }

  lemma ReplayOne(p: Pipeline, r: Reader, a: seq<Event>, ev: Event)
    requires Replay(p, r, a).Some?
    ensures Replay(p, r, a + [ev]) == Accept(p, Replay(p, r, a).value, ev)
  {
    ReplayConcat(p, r, a, [ev]);
    assert [ev][1..] == [];
  }

  /** The nodes a stream begins, in order. */
  ghost function Begins(evs: seq<Event>): seq<nat>
    decreases |evs|
  {
    if evs == [] then []
    else (if evs[0].Begin? then [evs[0].node] else []) + Begins(evs[1..])
  }

  lemma {:induction false} BeginsConcat(a: seq<Event>, b: seq<Event>)
    ensures Begins(a + b) == Begins(a) + Begins(b)
    decreases |a|
  {
    if a == [] {
      assert a + b == b;
    } else {
      assert (a + b)[1..] == a[1..] + b && (a + b)[0] == a[0];
      BeginsConcat(a[1..], b);
      var first := if a[0].Begin? then [a[0].node] else [];
      assert first + (Begins(a[1..]) + Begins(b)) == (first + Begins(a[1..])) + Begins(b);
    }
  }

  // ---------- Which streams are accepted ----------

  /** The numbers whose @SNAP has been read. */
  ghost function Closed(evs: seq<Event>): set<nat> {
    set i | 0 <= i < |evs| && evs[i].Snap? :: evs[i].seqno
  }

  /** Number `t` was begun and is not closed, and every later one is. */
  ghost predicate Innermost(evs: seq<Event>, t: nat) {
    && 1 <= t <= |Begins(evs)| && t !in Closed(evs)
    && forall u: nat | t < u <= |Begins(evs)| :: u in Closed(evs)
  }

  ghost predicate NoneOpen(evs: seq<Event>) {
    forall t: nat | 1 <= t <= |Begins(evs)| :: t in Closed(evs)
  }

  ghost predicate Ended(evs: seq<Event>) { evs != [] && evs[|evs| - 1].End? }

  /** The line `ev` is in order behind the lines `evs`: begins are numbered from 1 without gaps
      and sit below the innermost open frame, the first one on the root; an end names the innermost
      open frame; directly behind it, and only there, stands its snapshot; restart counts are not
      negative. */
  ghost predicate LineOk(p: Pipeline, evs: seq<Event>, ev: Event) {
    && (Ended(evs) <==> ev.Snap?)
    && match ev
       case Begin(s, n) =>
         && s == |Begins(evs)| + 1 && n < |p.nodes| && (NoneOpen(evs) ==> s == 1 && n == 0)
         && forall t: nat | Innermost(evs, t) :: p.nodes[n].parent == Some(Begins(evs)[t - 1])
       case End(s, n, _) => Innermost(evs, s) && Begins(evs)[s - 1] == n
       case Snap(s) => evs != [] && evs[|evs| - 1].End? && evs[|evs| - 1].seqno == s
       case RestartMark(c) => c >= 0
  }

  /** The frames on the stack are the begun numbers that are not closed, in ascending order. */
  ghost predicate Frames(stack: seq<Open>, begins: seq<nat>, closed: set<nat>) {
    && (forall j | 0 <= j < |stack| :: 1 <= stack[j].seqno <= |begins| && begins[stack[j].seqno - 1] == stack[j].node)
    && (forall j, k | 0 <= j < k < |stack| :: stack[j].seqno < stack[k].seqno)
    && (forall j | 0 <= j < |stack| :: stack[j].seqno !in closed)
    && (forall t: nat | 1 <= t <= |begins| && t !in closed :: OnStack(stack, t))
    && (forall t | t in closed :: t <= |begins|)
  }

  ghost predicate OnStack(stack: seq<Open>, t: nat) {
    exists j | 0 <= j < |stack| :: stack[j].seqno == t
  }

  ghost predicate Reads(evs: seq<Event>, r: Reader) {
    && r.lastSeq == |Begins(evs)| && (r.snapDue <==> Ended(evs))
    && Frames(r.stack, Begins(evs), Closed(evs))
    && (r.snapDue ==> r.stack != [] && r.stack[|r.stack| - 1].seqno == evs[|evs| - 1].seqno)
  }

  /** The top of the stack is the innermost open frame. */
  lemma TopIsInnermost(evs: seq<Event>, r: Reader)
    requires Reads(evs, r)
    ensures r.stack == [] <==> NoneOpen(evs)
    ensures forall t: nat :: Innermost(evs, t) <==> r.stack != [] && r.stack[|r.stack| - 1].seqno == t
  {
    if r.stack != [] {
      var top := r.stack[|r.stack| - 1].seqno;
      forall u: nat | top < u <= |Begins(evs)| ensures u in Closed(evs) {
        assert u !in Closed(evs) ==> OnStack(r.stack, u);
      }
      assert Innermost(evs, top);
      forall t: nat | Innermost(evs, t) ensures t == top { assert OnStack(r.stack, t); }
    } else {
      forall t: nat | 1 <= t <= |Begins(evs)| ensures t in Closed(evs) {
        assert t !in Closed(evs) ==> OnStack(r.stack, t);
      }
    }
  }

  lemma OneMoreLine(evs: seq<Event>, ev: Event)
    ensures Begins(evs + [ev]) == Begins(evs) + (if ev.Begin? then [ev.node] else [])
    ensures Closed(evs + [ev]) == Closed(evs) + (if ev.Snap? then {ev.seqno} else {})
  {
    BeginsConcat(evs, [ev]);
    assert [ev][1..] == [];
    forall i | 0 <= i < |evs| ensures (evs + [ev])[i] == evs[i] {}
    assert (evs + [ev])[|evs|] == ev;
  }

  /** The loader takes a line exactly when it is in order. */
  lemma LineAccepted(p: Pipeline, evs: seq<Event>, r: Reader, ev: Event)
    requires Reads(evs, r)
    ensures Accept(p, r, ev).Some? <==> LineOk(p, evs, ev)
  {
    TopIsInnermost(evs, r);
    if r.stack != [] {
      var top := r.stack[|r.stack| - 1];
      assert Innermost(evs, top.seqno) && Begins(evs)[top.seqno - 1] == top.node;
    }
  }

  lemma LineRead(p: Pipeline, evs: seq<Event>, r: Reader, ev: Event)
    requires Reads(evs, r) && Accept(p, r, ev).Some?
    ensures Reads(evs + [ev], Accept(p, r, ev).value)
  {
    OneMoreLine(evs, ev);
    FramesAfter(p, r, ev, Begins(evs), Closed(evs));
    assert (evs + [ev])[|evs|] == ev;
  }

  lemma FramesAfter(p: Pipeline, r: Reader, ev: Event, begins: seq<nat>, closed: set<nat>)
    requires Frames(r.stack, begins, closed) && r.lastSeq == |begins| && Accept(p, r, ev).Some?
    ensures Frames(Accept(p, r, ev).value.stack, begins + (if ev.Begin? then [ev.node] else []), closed + (if ev.Snap? then {ev.seqno} else {}))
  {
    assert begins + [] == begins && closed + {} == closed;
    match ev
    case Begin(_, n) => FramePushed(r.stack, begins, closed, n);
    case Snap(_) => FramePopped(r.stack, begins, closed);
    case _ =>
  }

  lemma FramePushed(stack: seq<Open>, begins: seq<nat>, closed: set<nat>, n: nat)
    requires Frames(stack, begins, closed)
    ensures Frames(stack + [Open(|begins| + 1, n)], begins + [n], closed)
  {
    var more := stack + [Open(|begins| + 1, n)];
    forall t: nat | 1 <= t <= |begins| + 1 && t !in closed ensures OnStack(more, t) {
      if t <= |begins| {
        var j :| 0 <= j < |stack| && stack[j].seqno == t;
        assert more[j].seqno == t;
      } else {
        assert more[|stack|].seqno == t;
      }
    }
  }

  lemma FramePopped(stack: seq<Open>, begins: seq<nat>, closed: set<nat>)
    requires Frames(stack, begins, closed) && stack != []
    ensures Frames(stack[..|stack| - 1], begins, closed + {stack[|stack| - 1].seqno})
  {
    var n := |stack| - 1;
    var rest, top := stack[..n], stack[n].seqno;
    assert forall j | 0 <= j < n :: rest[j] == stack[j] && stack[j].seqno < top;
    forall t: nat | 1 <= t <= |begins| && t !in closed + {top} ensures OnStack(rest, t) {
      assert OnStack(stack, t);
      var j :| 0 <= j < |stack| && stack[j].seqno == t;
      assert rest[j].seqno == t;
    }
  }

  lemma {:induction false} PrefixRead(p: Pipeline, evs: seq<Event>, n: nat)
    requires n <= |evs|
    ensures Replay(p, FRESH, evs[..n]).Some? <==> forall i: nat | i < n :: LineOk(p, evs[..i], evs[i])
    ensures Replay(p, FRESH, evs[..n]).Some? ==> Reads(evs[..n], Replay(p, FRESH, evs[..n]).value)
    decreases n
  {
    if n > 0 {
      var before, ev := evs[..n - 1], evs[n - 1];
      PrefixRead(p, evs, n - 1);
      assert evs[..n] == before + [ev];
      ReplayConcat(p, FRESH, before, [ev]);
      if Replay(p, FRESH, before).Some? {
        ReplayOne(p, FRESH, before, ev);
        LineAccepted(p, before, Replay(p, FRESH, before).value, ev);
        if Accept(p, Replay(p, FRESH, before).value, ev).Some? { LineRead(p, before, Replay(p, FRESH, before).value, ev); }
      }
    }
  }

  /** A stream is accepted exactly when each of its lines is in order behind those before it. */
  lemma AcceptedExactly(p: Pipeline, evs: seq<Event>)
    ensures Replay(p, FRESH, evs).Some? <==> forall i: nat | i < |evs| :: LineOk(p, evs[..i], evs[i])
    ensures Replay(p, FRESH, evs).Some? ==> (Replay(p, FRESH, evs).value.stack == [] <==> NoneOpen(evs))
  {
    PrefixRead(p, evs, |evs|);
    assert evs[..|evs|] == evs;
    if Replay(p, FRESH, evs).Some? { TopIsInnermost(evs, Replay(p, FRESH, evs).value); }
  }
}
