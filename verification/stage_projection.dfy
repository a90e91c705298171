/** The projection stepper (examples/httpd_decompile.rs:7790-7886).  A statement about every choice
    sequence is a statement about every prefix of every run, since choices stand for all that the
    pipeline decides. */
module StageProjection {
  import opened Common
  import opened StageTree
  import opened StageCandidates
  import opened StageExecutor
  import opened StageRuns
  import opened StageReader

  datatype Frame = Frame(node: nat, seqno: nat, testsBefore: nat)

  ghost function StackOf(open: seq<Frame>): seq<Open> {
    seq(|open|, i requires 0 <= i < |open| => Open(open[i].seqno, open[i].node))
  }

  // ---------- Restart marks and end lines ----------

  datatype Mark = Begun(node: nat) | Restarted(curstart: int)

  ghost function MarkOf(ev: Event): seq<Mark> {
    match ev
    case Begin(_, n) => [Begun(n)]
    case RestartMark(c) => [Restarted(c)]
    case _ => []
  }

  /** The begin and restart lines of a stream, in order. */
  ghost function Marks(evs: seq<Event>): seq<Mark>
    decreases |evs|
  {
    if evs == [] then [] else MarkOf(evs[0]) + Marks(evs[1..])
  }

  lemma {:induction false} MarksConcat(a: seq<Event>, b: seq<Event>)
    ensures Marks(a + b) == Marks(a) + Marks(b)
    decreases |a|
  {
    if a == [] {
      assert a + b == b;
    } else {
      assert (a + b)[1..] == a[1..] + b && (a + b)[0] == a[0];
      MarksConcat(a[1..], b);
      var first := MarkOf(a[0]);
      assert first + (Marks(a[1..]) + Marks(b)) == (first + Marks(a[1..])) + Marks(b);
    }
  }

  /** The marks a run calls for: a begin for each pause, and in front of it the new restart
      count where that differs from the count at the pause before. */
  ghost function MarksOf(begun: seq<nat>, stops: seq<Stop>): seq<Mark>
    requires |begun| == |stops|
  {
    if begun == [] then []
    else
      var n := |begun| - 1;
      MarksOf(begun[..n], stops[..n])
      + (if n > 0 && stops[n].curstart != stops[n - 1].curstart then [Restarted(stops[n].curstart)] else [])
      + [Begun(begun[n])]
  }

  /** The end lines of a stream, each with the number of begin lines in front of it. */
  ghost function EndLines(evs: seq<Event>, m: nat): seq<(nat, Event)>
    decreases |evs|
  {
    if evs == [] then []
    else (if evs[0].End? then [(m, evs[0])] else []) + EndLines(evs[1..], if evs[0].Begin? then m + 1 else m)
  }

  lemma {:induction false} EndLinesConcat(a: seq<Event>, b: seq<Event>, m: nat)
    ensures EndLines(a + b, m) == EndLines(a, m) + EndLines(b, m + |Begins(a)|)
    decreases |a|
  {
    if a == [] {
      assert a + b == b;
    } else {
      assert (a + b)[1..] == a[1..] + b && (a + b)[0] == a[0];
      var first, next := if a[0].End? then [(m, a[0])] else [], if a[0].Begin? then m + 1 else m;
      EndLinesConcat(a[1..], b, next);
      assert first + (EndLines(a[1..], next) + EndLines(b, next + |Begins(a[1..])|))
          == (first + EndLines(a[1..], next)) + EndLines(b, next + |Begins(a[1..])|);
    }
  }

  /** Frame `f` was begun for its node at its own number, with the test count of that pause. */
  ghost predicate Recorded(f: Frame, begun: seq<nat>, stops: seq<Stop>) {
    && 1 <= f.seqno <= |begun| == |stops| && begun[f.seqno - 1] == f.node
    && f.node < |stops[f.seqno - 1].tests| && f.testsBefore == stops[f.seqno - 1].tests[f.node]
  }

  /** An end line in front of which `m` frames were begun names the node of its own begin and the
      growth of that node's test count from there to pause `m`, in 32 bits. */
  ghost predicate HonestEnd(m: nat, ev: Event, begun: seq<nat>, stops: seq<Stop>) {
    && ev.End? && 1 <= ev.seqno <= m < |stops| && ev.seqno <= |begun| && begun[ev.seqno - 1] == ev.node
    && ev.node < |stops[ev.seqno - 1].tests| && ev.node < |stops[m].tests|
    && ev.tests == (stops[m].tests[ev.node] - stops[ev.seqno - 1].tests[ev.node]) % U32
  }

  ghost predicate HonestEnds(lines: seq<(nat, Event)>, begun: seq<nat>, stops: seq<Stop>) {
    forall i | 0 <= i < |lines| :: HonestEnd(lines[i].0, lines[i].1, begun, stops)
  }

  // ---------- The root-to-node path ----------

  ghost function Path(p: Pipeline, n: nat): (path: seq<nat>)
    requires ValidPipeline(p) && n < |p.nodes|
    ensures |path| > 0 && path[|path| - 1] == n
    decreases n
  {
    if n == 0 then [0] else
      assert LinkedUp(p.nodes, n);
      Path(p, p.nodes[n].parent.value) + [n]
  }

  /** Below an ancestor `up` the path of `n` starts with the path of `up`; the rest of it
      consists of nodes that are not ancestors of `up`. */
  lemma {:induction false} PathSplit(p: Pipeline, up: nat, n: nat)
    requires ValidPipeline(p) && up < |p.nodes| && n < |p.nodes| && AncOrSelf(p, up, n)
    ensures Path(p, up) <= Path(p, n)
    ensures forall i | 0 <= i < |Path(p, n)| :: AncOrSelf(p, Path(p, n)[i], up) <==> i < |Path(p, up)|
    decreases n, if up == n then 0 else 1
  {
    assert n > 0 ==> LinkedUp(p.nodes, n);
    if up != n {
      PathSplit(p, up, p.nodes[n].parent.value);
      if AncOrSelf(p, n, up) { AncOrder(p, n, up); AncOrder(p, up, n); }
    } else if n > 0 {
      var parent := p.nodes[n].parent.value;
      PathSplit(p, parent, parent);
      assert forall i | 0 <= i < |Path(p, parent)| :: AncOrSelf(p, Path(p, parent)[i], parent);
    }
  }

  // ---------- Closing frames ----------

  const U32: nat := 0x1_0000_0000

  function OneClose(e: Exec, f: Frame): seq<Event>
    requires f.node < |e.tests|
  {
    [End(f.seqno, f.node, (e.tests[f.node] - f.testsBefore) % U32), Snap(f.seqno)]
  }

  ghost function CloseEvents(e: Exec, open: seq<Frame>, keep: nat): seq<Event>
    requires keep <= |open| && forall f | f in open :: f.node < |e.tests|
    decreases |open|
  {
    if keep == |open| then []
    else OneClose(e, open[|open| - 1]) + CloseEvents(e, open[..|open| - 1], keep)
  }

  lemma OneCloseAccepted(p: Pipeline, e: Exec, open: seq<Frame>, last: nat)
    requires open != [] && open[|open| - 1].node < |e.tests|
    ensures Replay(p, Reader(StackOf(open), false, last), OneClose(e, open[|open| - 1]))
            == Some(Reader(StackOf(open[..|open| - 1]), false, last))
  {
    var r, one := Reader(StackOf(open), false, last), OneClose(e, open[|open| - 1]);
    assert one == [one[0]] + [one[1]];
    assert Replay(p, r, [one[0]]) == Accept(p, r, one[0]) by { assert [one[0]][1..] == []; }
    ReplayOne(p, r, [one[0]], one[1]);
    assert StackOf(open)[..|open| - 1] == StackOf(open[..|open| - 1]);
  }

  lemma {:induction false} CloseAccepted(p: Pipeline, e: Exec, open: seq<Frame>, keep: nat, last: nat)
    requires keep <= |open| && forall f | f in open :: f.node < |e.tests|
    ensures Replay(p, Reader(StackOf(open), false, last), CloseEvents(e, open, keep))
            == Some(Reader(StackOf(open[..keep]), false, last))
    decreases |open|
  {
    if keep == |open| {
      assert open[..keep] == open;
    } else {
      var rest := open[..|open| - 1];
      OneCloseAccepted(p, e, open, last);
      CloseAccepted(p, e, rest, keep, last);
      ReplayConcat(p, Reader(StackOf(open), false, last), OneClose(e, open[|open| - 1]), CloseEvents(e, rest, keep));
      assert rest[..keep] == open[..keep];
    }
  }

  lemma {:induction false} CloseBegins(e: Exec, open: seq<Frame>, keep: nat)
    requires keep <= |open| && forall f | f in open :: f.node < |e.tests|
    ensures Begins(CloseEvents(e, open, keep)) == []
    ensures (forall f | f in open :: e.tests[f.node] == f.testsBefore) ==> NoMissedTests(CloseEvents(e, open, keep))
    decreases |open|
  {
    if keep < |open| {
      var f, rest := open[|open| - 1], open[..|open| - 1];
      assert f in open;
      CloseBegins(e, rest, keep);
      BeginsConcat(OneClose(e, f), CloseEvents(e, rest, keep));
      assert OneClose(e, f)[1..] == [Snap(f.seqno)] && OneClose(e, f)[1..][1..] == [];
    }
  }

  lemma OneCloseLines(e: Exec, f: Frame, m: nat)
    requires f.node < |e.tests|
    ensures Marks(OneClose(e, f)) == [] && Begins(OneClose(e, f)) == []
    ensures EndLines(OneClose(e, f), m) == [(m, OneClose(e, f)[0])]
  {
    var end, snap := OneClose(e, f)[0], Snap(f.seqno);
    assert OneClose(e, f) == [end] + [snap];
    OneLine(end, m);
    OneLine(snap, m);
    MarksConcat([end], [snap]);
    BeginsConcat([end], [snap]);
    EndLinesConcat([end], [snap], m);
  }

  lemma OneLine(ev: Event, m: nat)
    ensures Marks([ev]) == MarkOf(ev)
    ensures Begins([ev]) == if ev.Begin? then [ev.node] else []
    ensures EndLines([ev], m) == if ev.End? then [(m, ev)] else []
  {
    assert [ev][1..] == [];
  }

  ghost predicate ClosesFrame(ev: Event, e: Exec, open: seq<Frame>)
    requires forall f | f in open :: f.node < |e.tests|
  {
    exists f | f in open :: ev == OneClose(e, f)[0]
  }

  /** Closing events carry no marks, and their end lines name frames that were open. */
  lemma {:induction false} CloseLines(e: Exec, open: seq<Frame>, keep: nat, m: nat)
    requires keep <= |open| && forall f | f in open :: f.node < |e.tests|
    ensures Marks(CloseEvents(e, open, keep)) == []
    ensures forall line | line in EndLines(CloseEvents(e, open, keep), m) :: line.0 == m && ClosesFrame(line.1, e, open)
    decreases |open|
  {
    if keep < |open| {
      var f, rest := open[|open| - 1], open[..|open| - 1];
      assert f in open;
      CloseLines(e, rest, keep, m);
      OneCloseLines(e, f, m);
      MarksConcat(OneClose(e, f), CloseEvents(e, rest, keep));
      EndLinesConcat(OneClose(e, f), CloseEvents(e, rest, keep), m);
      forall line | line in EndLines(CloseEvents(e, rest, keep), m) ensures ClosesFrame(line.1, e, open) {
        assert ClosesFrame(line.1, e, rest);
      }
    }
  }

  /** Every @END reports zero tests: no application of that node went past unseen. */
  ghost predicate NoMissedTests(evs: seq<Event>) {
    forall ev | ev in evs :: ev.End? ==> ev.tests == 0
  }

  method CloseTop(e: Exec, open: seq<Frame>, events: seq<Event>) returns (open': seq<Frame>, events': seq<Event>)
    requires open != [] && forall f | f in open :: f.node < |e.tests|
    ensures open' == open[..|open| - 1]
    ensures events' == events + CloseEvents(e, open, |open| - 1)
  {
    var f := open[|open| - 1];
    open' := open[..|open| - 1];
    events' := events + OneClose(e, f);
    assert CloseEvents(e, open, |open| - 1) == OneClose(e, f) + [];
  }

  lemma {:induction false} CloseEventsStep(e: Exec, open: seq<Frame>, mid: nat, keep: nat)
    requires keep <= mid <= |open| && forall f | f in open :: f.node < |e.tests|
    ensures CloseEvents(e, open, keep) == CloseEvents(e, open, mid) + CloseEvents(e, open[..mid], keep)
    decreases |open|
  {
    if mid == |open| {
      assert open[..mid] == open;
    } else {
      CloseEventsStep(e, open[..|open| - 1], mid, keep);
      assert open[..|open| - 1][..mid] == open[..mid];
    }
  }

  /** The frames closed at a pause are exactly those that are not proper ancestors of the
      paused node; what stays open is the path to its parent. */
  method CloseForPause(p: Pipeline, e: Exec, open: seq<Frame>, current: nat, paused: nat, events: seq<Event>)
    returns (open': seq<Frame>, events': seq<Event>)
    requires ValidExec(p, e) && current < |p.nodes| && 0 < paused < |p.nodes|
    requires forall f | f in open :: f.node < |p.nodes|
    requires |open| == |Path(p, current)| && forall i | 0 <= i < |open| :: open[i].node == Path(p, current)[i]
    requires p.nodes[paused].parent.Some? && p.nodes[paused].parent.value < |p.nodes|
    requires AncOrSelf(p, p.nodes[paused].parent.value, current)
    ensures open' <= open && events' == events + CloseEvents(e, open, |open'|)
    ensures forall i | 0 <= i < |open| :: ProperAnc(p, open[i].node, paused) <==> i < |open'|
    ensures |open'| == |Path(p, p.nodes[paused].parent.value)|
    ensures forall i | 0 <= i < |open'| :: open'[i].node == Path(p, p.nodes[paused].parent.value)[i]
  {
    var up := p.nodes[paused].parent.value;
    PathSplit(p, up, current);
    assert forall a :: ProperAnc(p, a, paused) <==> AncOrSelf(p, a, up);
    open', events' := open, events;
    while open' != []
      invariant |Path(p, up)| <= |open'| && open' <= open
      invariant events' == events + CloseEvents(e, open, |open'|)
      decreases |open'|
    {
      var stays := StageIsProperAncestor(p, open'[|open'| - 1].node, paused);
      if stays { break; }
      ghost var before := open';
      CloseEventsStep(e, open, |before|, |before| - 1);
      assert open[..|before|] == before;
      open', events' := CloseTop(e, open', events');
    }
  }

  // ---------- perform() up to the next pause ----------

  datatype Outcome = Paused | Completed | OutOfChoices

  /** The root's restart count is not negative until the pipeline has converged. */
  ghost predicate InProgress(e: Exec) {
    e.curstart >= 0 || Unwound(e)
  }

  /** One transition that is neither a pause nor past the end. */
  lemma SilentStep(p: Pipeline, e: Exec, g: Gap, begun: seq<nat>, stops: seq<Stop>, choices: seq<Choice>, at: nat -> Run, k: nat)
    requires ValidExec(p, e) && e.ctl != Finished && k < |choices| && Tracks(p, choices, at)
    requires at(k) == Run(e, g, begun, stops) && !(Starting(e) && e.ctl.node in g.armed)
    ensures at(k + 1) == Run(Step(p, e, choices[k]), g, begun, stops)
  {
    TrackNext(p, choices, at, k);
  }

  lemma SilentTests(p: Pipeline, e: Exec, g: Gap, begun: seq<nat>, stops: seq<Stop>, choices: seq<Choice>, at: nat -> Run, k: nat)
    requires ValidExec(p, e) && e.ctl != Finished && k < |choices| && Tracks(p, choices, at)
    requires at(k) == Run(e, g, begun, stops) && !(Starting(e) && e.ctl.node in g.armed)
    requires NoSlip(p, choices)
    ensures Step(p, e, choices[k]).tests == e.tests
  {
    SeenBefore(p, choices, k);
    assert at(k) == Drive(p, First(p), choices[..k]);
    if Starting(e) { StartIsArmed(p, g, e); }
  }

  lemma StillInProgress(p: Pipeline, e: Exec, choice: Choice)
    requires ValidExec(p, e) && e.ctl != Finished && InProgress(e)
    ensures InProgress(Step(p, e, choice))
  {
    if e.ctl.Back? { RootRow(p.nodes, e.ctl.node); }
  }

  lemma PauseStep(p: Pipeline, e: Exec, g: Gap, begun: seq<nat>, stops: seq<Stop>, choices: seq<Choice>, at: nat -> Run, k: nat)
    requires ValidExec(p, e) && Starting(e) && e.ctl.node in g.armed && k < |choices| && Tracks(p, choices, at)
    requires at(k) == Run(e, g, begun, stops)
    ensures at(k + 1) == Pause(p, e, begun, stops)
  {
    TrackNext(p, choices, at, k);
  }

  ghost predicate Arms(armed: seq<nat>, g: Gap) {
    forall c :: c in armed <==> c in g.armed
  }

  /** Runs to the next armed start or to the end.  In a run without slips no count_tests moves. */
  method Perform(p: Pipeline, start: Exec, armed: seq<nat>, choices: seq<Choice>, pos: nat,
                 ghost g: Gap, ghost begun: seq<nat>, ghost stops: seq<Stop>, ghost at: nat -> Run)
    returns (e: Exec, pos': nat, outcome: Outcome)
    requires ValidExec(p, start) && InProgress(start) && pos <= |choices|
    requires Tracks(p, choices, at) && at(pos) == Run(start, g, begun, stops) && Arms(armed, g)
    ensures ValidExec(p, e) && InProgress(e) && pos <= pos' <= |choices|
    ensures at(pos') == Run(e, g, begun, stops)
    ensures match outcome
            case Paused => pos' < |choices| && Starting(e) && e.ctl.node in g.armed
            case Completed => e.ctl.Finished?
            case OutOfChoices => pos' == |choices| && !e.ctl.Finished?
    ensures NoSlip(p, choices) ==> e.tests == start.tests
  {
    e, pos' := start, pos;
    while true
      invariant ValidExec(p, e) && InProgress(e) && pos <= pos' <= |choices|
      invariant at(pos') == Run(e, g, begun, stops)
      invariant NoSlip(p, choices) ==> e.tests == start.tests
      decreases |choices| - pos'
    {
      if e.ctl.Finished? { return e, pos', Completed; }
      if pos' == |choices| { return e, pos', OutOfChoices; }
      if Starting(e) && e.ctl.node in armed { return e, pos', Paused; }
      SilentStep(p, e, g, begun, stops, choices, at, pos');
      StillInProgress(p, e, choices[pos']);
      if NoSlip(p, choices) { SilentTests(p, e, g, begun, stops, choices, at, pos'); }
      e, pos' := Step(p, e, choices[pos']), pos' + 1;
    }
  }

  // ---------- The stepper ----------

  /** Between pauses: the loader has accepted everything written so far, and the frames it
      holds open are the root-to-node path of the node begun last. */
  ghost predicate Streaming(p: Pipeline, events: seq<Event>, open: seq<Frame>, seqno: nat, current: nat) {
    && ValidPipeline(p) && current < |p.nodes|
    && Replay(p, FRESH, events) == Some(Reader(StackOf(open), false, seqno))
    && |open| == |Path(p, current)|
    && (forall i | 0 <= i < |open| :: open[i].node == Path(p, current)[i] && open[i].node < |p.nodes|)
  }

  ghost predicate ClosedStream(p: Pipeline, events: seq<Event>) {
    exists last: nat :: Replay(p, FRESH, events) == Some(Reader([], false, last))
  }

  method Close(p: Pipeline, e: Exec, open: seq<Frame>, events: seq<Event>, ghost last: nat) returns (events': seq<Event>)
    requires ValidExec(p, e) && forall f | f in open :: f.node < |p.nodes|
    requires Replay(p, FRESH, events) == Some(Reader(StackOf(open), false, last))
    ensures Replay(p, FRESH, events') == Some(Reader([], false, last))
    ensures Begins(events') == Begins(events)
    ensures NoMissedTests(events) && (forall f | f in open :: e.tests[f.node] == f.testsBefore) ==> NoMissedTests(events')
    ensures events' == events + CloseEvents(e, open, 0)
  {
    var rest := open;
    events' := events;
    while rest != []
      invariant rest <= open && events' == events + CloseEvents(e, open, |rest|)
      decreases |rest|
    {
      ghost var before := rest;
      CloseEventsStep(e, open, |before|, |before| - 1);
      assert open[..|before|] == before;
      rest, events' := CloseTop(e, rest, events');
    }
    CloseAccepted(p, e, open, 0, last);
    CloseBegins(e, open, 0);
    ReplayConcat(p, FRESH, events, CloseEvents(e, open, 0));
    assert open[..0] == [] && StackOf([]) == [];
    BeginsConcat(events, CloseEvents(e, open, 0));
  }

  /** The frames' recorded count_tests are still the current ones. */
  ghost predicate TestsStill(e: Exec, open: seq<Frame>) {
    forall f | f in open :: f.node < |e.tests| && e.tests[f.node] == f.testsBefore
  }

  method MarkRestart(p: Pipeline, ghost r: Reader, now: int, seen: int, events: seq<Event>) returns (events': seq<Event>)
    requires !r.snapDue && Replay(p, FRESH, events) == Some(r) && now >= 0
    ensures Replay(p, FRESH, events') == Some(r) && Begins(events') == Begins(events)
    ensures NoMissedTests(events) ==> NoMissedTests(events')
    ensures events' == events + (if now != seen then [RestartMark(now)] else [])
  {
    events' := events;
    if now != seen {
      ReplayOne(p, FRESH, events, RestartMark(now));
      BeginsConcat(events, [RestartMark(now)]);
      assert [RestartMark(now)][1..] == [];
      events' := events + [RestartMark(now)];
    }
  }

  method BeginFrame(p: Pipeline, e: Exec, open: seq<Frame>, seqno: nat, events: seq<Event>)
    returns (open': seq<Frame>, events': seq<Event>)
    requires ValidExec(p, e) && e.ctl.Enter? && 0 < e.ctl.node
    requires p.nodes[e.ctl.node].parent.Some?
    requires Streaming(p, events, open, seqno, p.nodes[e.ctl.node].parent.value)
    ensures Streaming(p, events', open', seqno + 1, e.ctl.node)
    ensures Begins(events') == Begins(events) + [e.ctl.node]
    ensures NoMissedTests(events) ==> NoMissedTests(events')
    ensures TestsStill(e, open) ==> TestsStill(e, open')
    ensures events' == events + [Begin(seqno + 1, e.ctl.node)] && open' == open + [Frame(e.ctl.node, seqno + 1, e.tests[e.ctl.node])]
  {
    var n := e.ctl.node;
    events' := events + [Begin(seqno + 1, n)];
    open' := open + [Frame(n, seqno + 1, e.tests[n])];
    ReplayOne(p, FRESH, events, Begin(seqno + 1, n));
    BeginsConcat(events, [Begin(seqno + 1, n)]);
    assert [Begin(seqno + 1, n)][1..] == [];
    assert StackOf(open') == StackOf(open) + [Open(seqno + 1, n)];
    assert Path(p, n) == Path(p, p.nodes[n].parent.value) + [n];
  }

  /** One pause: close the frames that are not ancestors, note a restart, begin the new frame. */
  method OnPause(p: Pipeline, e: Exec, open: seq<Frame>, current: nat, seqno: nat, curstart: int, events: seq<Event>)
    returns (open': seq<Frame>, events': seq<Event>, ghost keep: nat)
    requires ValidExec(p, e) && e.ctl.Enter? && 0 < e.ctl.node && e.curstart >= 0
    requires Streaming(p, events, open, seqno, current)
    requires p.nodes[e.ctl.node].parent.Some? && p.nodes[e.ctl.node].parent.value < |p.nodes|
    requires AncOrSelf(p, p.nodes[e.ctl.node].parent.value, current)
    ensures Streaming(p, events', open', seqno + 1, e.ctl.node)
    ensures Begins(events') == Begins(events) + [e.ctl.node]
    ensures NoMissedTests(events) && TestsStill(e, open) ==> NoMissedTests(events') && TestsStill(e, open')
    ensures keep <= |open| && open' == open[..keep] + [Frame(e.ctl.node, seqno + 1, e.tests[e.ctl.node])]
    ensures events' == events + CloseEvents(e, open, keep) + (if e.curstart != curstart then [RestartMark(e.curstart)] else [])
           + [Begin(seqno + 1, e.ctl.node)]
  {
    open', events' := CloseForPause(p, e, open, current, e.ctl.node, events);
    CloseAccepted(p, e, open, |open'|, seqno);
    CloseBegins(e, open, |open'|);
    ReplayConcat(p, FRESH, events, CloseEvents(e, open, |open'|));
    BeginsConcat(events, CloseEvents(e, open, |open'|));
    assert open' == open[..|open'|];
    events' := MarkRestart(p, Reader(StackOf(open'), false, seqno), e.curstart, curstart, events');
    keep := |open'|;
    open', events' := BeginFrame(p, e, open', seqno, events');
    assert open' == open[..keep] + [Frame(e.ctl.node, seqno + 1, e.tests[e.ctl.node])];
  }

  /** The break on the root's own start fires at once. */
  method BeginRoot(p: Pipeline, e: Exec) returns (open: seq<Frame>, events: seq<Event>)
    requires ValidExec(p, e)
    ensures Streaming(p, events, open, 1, 0) && Begins(events) == [0] && NoMissedTests(events) && TestsStill(e, open)
    ensures events == [Begin(1, 0)] && open == [Frame(0, 1, e.tests[0])]
  {
    events := [Begin(1, 0)];
    open := [Frame(0, 1, e.tests[0])];
    ReplayOne(p, FRESH, [], Begin(1, 0));
    assert [] + events == events && [] + [Open(1, 0)] == [Open(1, 0)] && events[1..] == [];
    assert StackOf(open) == [Open(1, 0)];
  }

  /** A restart line stands directly in front of a begin line. */
  ghost predicate MarksTight(events: seq<Event>) {
    forall i: nat | i < |events| :: BeginFollows(events, i)
  }

  ghost predicate BeginFollows(events: seq<Event>, i: nat)
    requires i < |events|
  {
    events[i].RestartMark? ==> i + 1 < |events| && events[i + 1].Begin?
  }

  /** The lines written so far say what the pauses so far call for. */
  ghost predicate Faithful(events: seq<Event>, open: seq<Frame>, stops: seq<Stop>) {
    && |Begins(events)| == |stops| > 0
    && Marks(events) == MarksOf(Begins(events), stops) && MarksTight(events)
    && HonestEnds(EndLines(events, 0), Begins(events), stops)
    && forall f | f in open :: Recorded(f, Begins(events), stops)
  }

  lemma {:induction false} CloseKinds(e: Exec, open: seq<Frame>, keep: nat)
    requires keep <= |open| && forall f | f in open :: f.node < |e.tests|
    ensures forall ev | ev in CloseEvents(e, open, keep) :: ev.End? || ev.Snap?
    decreases |open|
  {
    if keep < |open| { CloseKinds(e, open[..|open| - 1], keep); }
  }

  lemma HonestLonger(lines: seq<(nat, Event)>, begun: seq<nat>, more: seq<nat>, stops: seq<Stop>, stop: Stop)
    requires HonestEnds(lines, begun, stops) && |begun| == |stops|
    ensures HonestEnds(lines, begun + more, stops + [stop])
  {
    forall i | 0 <= i < |lines| ensures HonestEnd(lines[i].0, lines[i].1, begun + more, stops + [stop]) {
      assert HonestEnd(lines[i].0, lines[i].1, begun, stops);
    }
  }

  lemma RecordedLonger(f: Frame, begun: seq<nat>, n: nat, stops: seq<Stop>, stop: Stop)
    requires Recorded(f, begun, stops)
    ensures Recorded(f, begun + [n], stops + [stop])
  {
  }

  lemma ClosesHonestly(e: Exec, open: seq<Frame>, ev: Event, begun: seq<nat>, stops: seq<Stop>)
    requires (forall f | f in open :: f.node < |e.tests| && Recorded(f, begun, stops)) && ClosesFrame(ev, e, open)
    ensures HonestEnd(|begun|, ev, begun, stops + [Stop(e.curstart, e.tests)])
  {
    var f :| f in open && ev == OneClose(e, f)[0];
    assert (stops + [Stop(e.curstart, e.tests)])[f.seqno - 1] == stops[f.seqno - 1];
  }

  /** Closing recorded frames writes honest end lines. */
  lemma AddedHonestly(e: Exec, open: seq<Frame>, keep: nat, begun: seq<nat>, stops: seq<Stop>)
    requires keep <= |open| && forall f | f in open :: f.node < |e.tests| && Recorded(f, begun, stops)
    ensures forall line | line in EndLines(CloseEvents(e, open, keep), |begun|) ::
      HonestEnd(line.0, line.1, begun, stops + [Stop(e.curstart, e.tests)])
  {
    CloseLines(e, open, keep, |begun|);
    forall line | line in EndLines(CloseEvents(e, open, keep), |begun|)
      ensures HonestEnd(line.0, line.1, begun, stops + [Stop(e.curstart, e.tests)])
    {
      ClosesHonestly(e, open, line.1, begun, stops);
    }
  }

  lemma ClosedHonestly(e: Exec, open: seq<Frame>, keep: nat, events: seq<Event>, begun: seq<nat>, stops: seq<Stop>)
    requires keep <= |open| && forall f | f in open :: f.node < |e.tests| && Recorded(f, begun, stops)
    requires begun == Begins(events) && |begun| == |stops| && HonestEnds(EndLines(events, 0), begun, stops)
    ensures HonestEnds(EndLines(events + CloseEvents(e, open, keep), 0), begun, stops + [Stop(e.curstart, e.tests)])
  {
    EndLinesConcat(events, CloseEvents(e, open, keep), 0);
    AddedHonestly(e, open, keep, begun, stops);
    assert begun + [] == begun;
    HonestLonger(EndLines(events, 0), begun, [], stops, Stop(e.curstart, e.tests));
    HonestBoth(EndLines(events, 0), EndLines(CloseEvents(e, open, keep), |begun|), begun, stops + [Stop(e.curstart, e.tests)]);
  }

  lemma HonestBoth(a: seq<(nat, Event)>, b: seq<(nat, Event)>, begun: seq<nat>, stops: seq<Stop>)
    requires HonestEnds(a, begun, stops) && forall line | line in b :: HonestEnd(line.0, line.1, begun, stops)
    ensures HonestEnds(a + b, begun, stops)
  {
  }

  /** What one more line adds. */
  lemma LineAdded(events: seq<Event>, ev: Event)
    requires ev.Begin? || ev.RestartMark?
    ensures Marks(events + [ev]) == Marks(events) + [if ev.Begin? then Begun(ev.node) else Restarted(ev.curstart)]
    ensures Begins(events + [ev]) == Begins(events) + (if ev.Begin? then [ev.node] else [])
    ensures EndLines(events + [ev], 0) == EndLines(events, 0)
  {
    OneLine(ev, |Begins(events)|);
    MarksConcat(events, [ev]);
    BeginsConcat(events, [ev]);
    EndLinesConcat(events, [ev], 0);
  }

  lemma TightAdded(events: seq<Event>, mark: seq<Event>, begin: Event)
    requires MarksTight(events) && begin.Begin? && (mark == [] || (|mark| == 1 && mark[0].RestartMark?))
    ensures MarksTight(events + mark + [begin])
  {
    var after := events + mark + [begin];
    forall i: nat | i < |after| ensures BeginFollows(after, i) {
      if i < |events| { assert BeginFollows(events, i); }
    }
  }

  /** The events after closing frames have the same marks, and their restart lines stay in place. */
  lemma ClosedMarks(e: Exec, open: seq<Frame>, keep: nat, events: seq<Event>)
    requires keep <= |open| && (forall f | f in open :: f.node < |e.tests|) && MarksTight(events)
    ensures var after := events + CloseEvents(e, open, keep);
      Marks(after) == Marks(events) && MarksTight(after) && Begins(after) == Begins(events)
  {
    var closing := CloseEvents(e, open, keep);
    CloseLines(e, open, keep, 0);
    CloseKinds(e, open, keep);
    CloseBegins(e, open, keep);
    MarksConcat(events, closing);
    BeginsConcat(events, closing);
    forall i | 0 <= i < |closing| ensures !closing[i].RestartMark? { assert closing[i] in closing; }
    forall i: nat | i < |events + closing| ensures BeginFollows(events + closing, i) {
      if i < |events| { assert BeginFollows(events, i); } else { assert !closing[i - |events|].RestartMark?; }
    }
  }

  lemma PauseMarks(e: Exec, open: seq<Frame>, keep: nat, events: seq<Event>, stops: seq<Stop>, seqno: nat, n: nat)
    requires keep <= |open| && (forall f | f in open :: f.node < |e.tests|) && Faithful(events, open, stops)
    ensures var seen := stops[|stops| - 1].curstart;
      var events' := events + CloseEvents(e, open, keep) + (if e.curstart != seen then [RestartMark(e.curstart)] else []) + [Begin(seqno, n)];
      && Begins(events') == Begins(events) + [n] && MarksTight(events')
      && Marks(events') == MarksOf(Begins(events) + [n], stops + [Stop(e.curstart, e.tests)])
      && EndLines(events', 0) == EndLines(events + CloseEvents(e, open, keep), 0)
  {
    var closing := events + CloseEvents(e, open, keep);
    var mark := if e.curstart != stops[|stops| - 1].curstart then [RestartMark(e.curstart)] else [];
    ClosedMarks(e, open, keep, events);
    TightAdded(closing, mark, Begin(seqno, n));
    MarkAdded(closing, stops[|stops| - 1].curstart, e.curstart);
    LineAdded(closing + mark, Begin(seqno, n));
    MarksSnoc(Begins(events), stops, n, Stop(e.curstart, e.tests));
  }

  lemma MarkAdded(events: seq<Event>, seen: int, now: int)
    ensures var after := events + (if now != seen then [RestartMark(now)] else []);
      && Marks(after) == Marks(events) + (if now != seen then [Restarted(now)] else [])
      && Begins(after) == Begins(events) && EndLines(after, 0) == EndLines(events, 0)
  {
    if now != seen { LineAdded(events, RestartMark(now)); } else { assert events + [] == events; }
  }

  lemma MarksSnoc(begun: seq<nat>, stops: seq<Stop>, n: nat, stop: Stop)
    requires |begun| == |stops| > 0
    ensures MarksOf(begun + [n], stops + [stop]) == MarksOf(begun, stops)
      + (if stop.curstart != stops[|stops| - 1].curstart then [Restarted(stop.curstart)] else []) + [Begun(n)]
  {
    assert (begun + [n])[..|stops|] == begun && (stops + [stop])[..|stops|] == stops;
  }

  lemma FaithfulPause(e: Exec, open: seq<Frame>, keep: nat, events: seq<Event>, open': seq<Frame>, events': seq<Event>, stops: seq<Stop>, n: nat)
    requires keep <= |open| && (forall f | f in open :: f.node < |e.tests|) && n < |e.tests| && Faithful(events, open, stops)
    requires open' == open[..keep] + [Frame(n, |stops| + 1, e.tests[n])]
    requires events' == events + CloseEvents(e, open, keep)
      + (if e.curstart != stops[|stops| - 1].curstart then [RestartMark(e.curstart)] else []) + [Begin(|stops| + 1, n)]
    ensures Faithful(events', open', stops + [Stop(e.curstart, e.tests)])
  {
    var stop, begun := Stop(e.curstart, e.tests), Begins(events);
    PauseMarks(e, open, keep, events, stops, |stops| + 1, n);
    ClosedHonestly(e, open, keep, events, begun, stops);
    var lines := EndLines(events + CloseEvents(e, open, keep), 0);
    HonestFurther(lines, begun, n, stops + [stop]);
    RecordedThen(open, keep, begun, stops, stop, n);
  }

  lemma HonestFurther(lines: seq<(nat, Event)>, begun: seq<nat>, n: nat, stops: seq<Stop>)
    requires HonestEnds(lines, begun, stops)
    ensures HonestEnds(lines, begun + [n], stops)
  {
    forall i | 0 <= i < |lines| ensures HonestEnd(lines[i].0, lines[i].1, begun + [n], stops) {
      assert HonestEnd(lines[i].0, lines[i].1, begun, stops);
    }
  }

  lemma RecordedThen(open: seq<Frame>, keep: nat, begun: seq<nat>, stops: seq<Stop>, stop: Stop, n: nat)
    requires keep <= |open| && |begun| == |stops| && n < |stop.tests| && forall f | f in open :: Recorded(f, begun, stops)
    ensures forall f | f in open[..keep] + [Frame(n, |stops| + 1, stop.tests[n])] :: Recorded(f, begun + [n], stops + [stop])
  {
    forall f | f in open[..keep] + [Frame(n, |stops| + 1, stop.tests[n])] ensures Recorded(f, begun + [n], stops + [stop]) {
      if f in open[..keep] {
        assert f in open;
        RecordedLonger(f, begun, n, stops, stop);
      }
    }
  }

  /** The stream tells the run: its begin and restart lines are those the pauses call for, and
      its end lines are honest, the last ones about the end of the run. */
  ghost predicate Told(events: seq<Event>, r: Run) {
    && |r.begun| == |r.stops| && Marks(events) == MarksOf(r.begun, r.stops)
    && HonestEnds(EndLines(events, 0), r.begun, r.stops + [Stop(r.e.curstart, r.e.tests)])
  }

  lemma ToldSoFar(events: seq<Event>, open: seq<Frame>, stops: seq<Stop>, r: Run)
    requires Faithful(events, open, stops) && r.begun == Begins(events) && r.stops == stops
    ensures Told(events, r) && MarksTight(events)
  {
    HonestLonger(EndLines(events, 0), r.begun, [], stops, Stop(r.e.curstart, r.e.tests));
    assert r.begun + [] == r.begun;
  }

  /** The stepper at a pause: the stream is accepted and faithful up to the frame just begun. */
  ghost predicate AtPause(p: Pipeline, e: Exec, events: seq<Event>, open: seq<Frame>, stops: seq<Stop>) {
    && ValidExec(p, e) && Starting(e) && InProgress(e)
    && Streaming(p, events, open, |stops|, e.ctl.node)
    && Faithful(events, open, stops) && stops[|stops| - 1] == Stop(e.curstart, e.tests)
  }

  lemma FirstPause(p: Pipeline, e: Exec, events: seq<Event>, open: seq<Frame>)
    requires ValidPipeline(p) && e == Initial(p) && events == [Begin(1, 0)] && open == [Frame(0, 1, e.tests[0])]
    requires Streaming(p, events, open, 1, 0)
    ensures AtPause(p, e, events, open, [Stop(e.curstart, e.tests)])
  {
    OneLine(events[0], 0);
    assert Begins(events) == [0];
    assert MarksOf([0], [Stop(e.curstart, e.tests)]) == MarksOf([], []) + [] + [Begun(0)];
  }

  /** The stepper is at pause `e` of the run, `pos` choices in. */
  ghost predicate Live(p: Pipeline, choices: seq<Choice>, at: nat -> Run, pos: nat, e: Exec, events: seq<Event>, open: seq<Frame>, stops: seq<Stop>)
  {
    && AtPause(p, e, events, open, stops) && pos <= |choices|
    && at(pos) == Run(Resume(p, e), PausedAt(p, e), Begins(events), stops)
    && (NoSlip(p, choices) ==> NoMissedTests(events) && TestsStill(e, open))
  }

  /** From the pause `was` to the pause `e`, one choice further. */
  method TakePause(p: Pipeline, ghost choices: seq<Choice>, ghost at: nat -> Run, ghost pos: nat, ghost was: Exec, e: Exec, open: seq<Frame>,
                   current: nat, seqno: nat, curstart: int, events: seq<Event>, ghost stops: seq<Stop>)
    returns (open': seq<Frame>, events': seq<Event>)
    requires ValidPipeline(p) && AtPause(p, was, events, open, stops) && NextPause(p, was, e)
    requires seqno == |stops| && curstart == was.curstart && current == was.ctl.node
    requires pos < |choices| && at(pos + 1) == Pause(p, e, Begins(events), stops)
    requires NoSlip(p, choices) ==> NoMissedTests(events) && TestsStill(e, open)
    ensures Live(p, choices, at, pos + 1, e, events', open', stops + [Stop(e.curstart, e.tests)])
  {
    ghost var keep;
    assert forall f | f in open :: f.node < |e.tests|;
    open', events', keep := OnPause(p, e, open, current, seqno, curstart, events);
    FaithfulPause(e, open, keep, events, open', events', stops, e.ctl.node);
  }

  /** The start `e` hangs below the pause `was` or one of its ancestors. */
  ghost predicate NextPause(p: Pipeline, was: Exec, e: Exec) {
    && ValidExec(p, e) && Starting(e) && InProgress(e) && 0 < e.ctl.node && ValidExec(p, was) && Starting(was)
    && p.nodes[e.ctl.node].parent.Some? && p.nodes[e.ctl.node].parent.value < |p.nodes|
    && AncOrSelf(p, p.nodes[e.ctl.node].parent.value, was.ctl.node)
  }

  ghost predicate OnTrack(r: Run, e: Exec, begun: seq<nat>, stops: seq<Stop>) {
    r.e == e && r.begun == begun && r.stops == stops
  }

  /** How a perform call from the pause `was` can end. */
  ghost predicate Performed(p: Pipeline, choices: seq<Choice>, was: Exec, e: Exec, pos: nat, outcome: Outcome, events: seq<Event>,
                            open: seq<Frame>, stops: seq<Stop>, at: nat -> Run)
    requires ValidPipeline(p)
  {
    && ValidExec(p, e) && pos <= |choices| && (NoSlip(p, choices) ==> NoMissedTests(events) && TestsStill(e, open))
    && match outcome
       case Paused => pos < |choices| && NextPause(p, was, e) && at(pos + 1) == Pause(p, e, Begins(events), stops)
       case Completed => e.ctl.Finished? && OnTrack(at(pos), e, Begins(events), stops)
       case OutOfChoices => pos == |choices| && !e.ctl.Finished? && OnTrack(at(pos), e, Begins(events), stops)
  }

  /** Resuming from a pause with its frontier armed, up to the next pause. */
  method PerformFrom(p: Pipeline, e: Exec, choices: seq<Choice>, pos: nat, ghost events: seq<Event>, ghost open: seq<Frame>,
                     ghost stops: seq<Stop>, ghost at: nat -> Run)
    returns (e': Exec, pos': nat, outcome: Outcome)
    requires ValidPipeline(p) && Tracks(p, choices, at) && Live(p, choices, at, pos, e, events, open, stops)
    ensures pos <= pos' && Performed(p, choices, e, e', pos', outcome, events, open, stops, at)
  {
    var candidates := StageFrontier(p, e.ended, e.ctl.node);
    ghost var g := PausedAt(p, e);
    e', pos', outcome := Perform(p, Resume(p, e), candidates, choices, pos, g, Begins(events), stops, at);
    if outcome.Paused? {
      FrontierSound(p, e.ended, e.ctl.node, e'.ctl.node);
      PauseStep(p, e', g, Begins(events), stops, choices, at, pos');
    }
  }

  /** What the emitter promises of the stream of a run. */
  ghost predicate Emitted(p: Pipeline, choices: seq<Choice>, e: Exec, events: seq<Event>, r: Run)
    requires ValidPipeline(p)
  {
    && e == r.e && Begins(events) == r.begun && MarksTight(events) && Told(events, r)
    && (NoSlip(p, choices) ==> NoMissedTests(events))
  }

  lemma StopsHere(p: Pipeline, choices: seq<Choice>, was: Exec, e: Exec, events: seq<Event>, open: seq<Frame>, stops: seq<Stop>, r: Run)
    requires ValidPipeline(p) && AtPause(p, was, events, open, stops) && OnTrack(r, e, Begins(events), stops)
    requires NoSlip(p, choices) ==> NoMissedTests(events)
    ensures Emitted(p, choices, e, events, r)
    ensures exists seqno: nat, current: nat :: Streaming(p, events, open, seqno, current)
  {
    ToldSoFar(events, open, stops, r);
  }

  /** The end of a faithful stream: all frames are closed. */
  method Finish(p: Pipeline, ghost choices: seq<Choice>, ghost was: Exec, e: Exec, open: seq<Frame>, events: seq<Event>, ghost stops: seq<Stop>, ghost r: Run)
    returns (events': seq<Event>)
    requires AtPause(p, was, events, open, stops) && ValidExec(p, e) && OnTrack(r, e, Begins(events), stops)
    requires NoSlip(p, choices) ==> NoMissedTests(events) && TestsStill(e, open)
    ensures ClosedStream(p, events') && Emitted(p, choices, e, events', r)
  {
    ClosedHonestly(e, open, 0, events, Begins(events), stops);
    ClosedMarks(e, open, 0, events);
    events' := Close(p, e, open, events, |stops|);
  }

  /** From one pause to the next, or to the end of the stream. */
  method Onward(p: Pipeline, choices: seq<Choice>, was: Exec, pos: nat, open: seq<Frame>, seqno: nat, events: seq<Event>,
                ghost stops: seq<Stop>, ghost at: nat -> Run)
    returns (e: Exec, pos': nat, outcome: Outcome, open': seq<Frame>, events': seq<Event>)
    requires ValidPipeline(p) && Tracks(p, choices, at) && Live(p, choices, at, pos, was, events, open, stops) && seqno == |stops|
    ensures match outcome
            case Paused => pos < pos' && Live(p, choices, at, pos', e, events', open', stops + [Stop(e.curstart, e.tests)])
            case _ => Ends(p, choices, e, events', open', pos', at(pos'), outcome.Completed?)
  {
    e, pos', outcome := PerformFrom(p, was, choices, pos, events, open, stops, at);
    open', events' := Settle(p, choices, was, e, pos', outcome, open, seqno, events, stops, at);
    if outcome.Paused? { pos' := pos' + 1; }
  }

  /** What the stepper writes when a perform call from the pause `was` returns. */
  method Settle(p: Pipeline, ghost choices: seq<Choice>, was: Exec, e: Exec, ghost pos: nat, outcome: Outcome, open: seq<Frame>, seqno: nat,
                events: seq<Event>, ghost stops: seq<Stop>, ghost at: nat -> Run)
    returns (open': seq<Frame>, events': seq<Event>)
    requires ValidPipeline(p) && AtPause(p, was, events, open, stops) && seqno == |stops|
    requires Performed(p, choices, was, e, pos, outcome, events, open, stops, at)
    ensures if outcome.Paused? then Live(p, choices, at, pos + 1, e, events', open', stops + [Stop(e.curstart, e.tests)])
      else Ends(p, choices, e, events', open', pos, at(pos), outcome.Completed?)
  {
    if outcome.Paused? {
      open', events' := TakePause(p, choices, at, pos, was, e, open, was.ctl.node, seqno, was.curstart, events, stops);
    } else {
      open', events' := EndHere(p, choices, was, e, open, events, stops, pos, at(pos), outcome.Completed?);
    }
  }

  /** The stream ends here, closed if the run has finished. */
  ghost predicate Ends(p: Pipeline, choices: seq<Choice>, e: Exec, events: seq<Event>, open: seq<Frame>, pos: nat, r: Run, done: bool)
    requires ValidPipeline(p)
  {
    && pos <= |choices| && (done <==> r.e.ctl.Finished?) && Emitted(p, choices, e, events, r)
    && (done ==> ClosedStream(p, events))
    && (!done ==> pos == |choices| && exists seqno: nat, current: nat :: Streaming(p, events, open, seqno, current))
  }

  method EndHere(p: Pipeline, ghost choices: seq<Choice>, ghost was: Exec, e: Exec, open: seq<Frame>, events: seq<Event>, ghost stops: seq<Stop>,
                 ghost pos: nat, ghost r: Run, done: bool)
    returns (open': seq<Frame>, events': seq<Event>)
    requires ValidPipeline(p) && AtPause(p, was, events, open, stops) && ValidExec(p, e) && OnTrack(r, e, Begins(events), stops)
    requires pos <= |choices| && (done <==> e.ctl.Finished?) && (!done ==> pos == |choices|)
    requires NoSlip(p, choices) ==> NoMissedTests(events) && TestsStill(e, open)
    ensures Ends(p, choices, e, events', open', pos, r, done)
  {
    open', events' := open, events;
    if done {
      open' := [];
      events' := Finish(p, choices, was, e, open, events, stops, r);
    } else {
      StopsHere(p, choices, was, e, events, open, stops, r);
    }
  }

  /**
   * `emit_stage_projection`.  Whatever the pipeline decides, the loader accepts the stream,
   * its open frames are always one root-to-node path, and a completed stream closes them
   * all.  The @BEGIN lines are exactly the applications the executor started, in order, if and
   * only if the run has no slip, and then every @END reports tests=0.  A @RESTART line stands
   * in front of the begin of exactly those pauses whose restart count is a new one, and every
   * @END reports the growth of its node's test count since its own begin.
   */
  method EmitStageProjection(p: Pipeline, choices: seq<Choice>)
    returns (events: seq<Event>, open: seq<Frame>, e: Exec, done: bool)
    requires ValidPipeline(p)
    ensures done <==> e.ctl.Finished?
    ensures done ==> ClosedStream(p, events)
    ensures !done ==> exists seqno: nat, current: nat :: Streaming(p, events, open, seqno, current)
    ensures Emitted(p, choices, e, events, Drive(p, First(p), choices))
    ensures Begins(events) == e.log <==> NoSlip(p, choices)
  {
    var pos: nat, seqno: nat, outcome := 0, 1, Paused;
    e := Initial(p);
    open, events := BeginRoot(p, e);
    FirstPause(p, e, events, open);
    ghost var at := Track(p, choices);
    ghost var stops := [Stop(e.curstart, e.tests)];
    BegunExactly(p, choices);
    while true
      invariant Live(p, choices, at, pos, e, events, open, stops) && seqno == |stops|
      decreases |choices| - pos
    {
      e, pos, outcome, open, events := Onward(p, choices, e, pos, open, seqno, events, stops, at);
      if !outcome.Paused? {
        if outcome.Completed? { TrackEnd(p, choices, at, pos); }
        return events, open, e, outcome.Completed?;
      }
      stops := stops + [Stop(e.curstart, e.tests)];
      seqno := seqno + 1;
    }
  }

  datatype Projection = TooFewNodes | Projected(events: seq<Event>, done: bool)

  /** The pipeline of a live tree, whose pre-order node `i` has rule flags `flags[i]`. */
  ghost predicate PipelineOf(p: Pipeline, root: Action, flags: seq<bv32>)
    requires |flags| == Size(root)
  {
    && ValidPipeline(p) && WalkOf(p.nodes, root)
    && forall i | 0 <= i < |p.acts| :: p.acts[i] == ActionInfo(Flat(root)[i].Group?, flags[i])
  }

  /** The loader accepts the stream, and when done all its frames are closed.  Its lines are
      those of the run; its begins are the executor's start log exactly when the run has no slip. */
  ghost predicate ProjectionOf(p: Pipeline, choices: seq<Choice>, events: seq<Event>, done: bool)
    requires ValidPipeline(p)
  {
    var r := Drive(p, First(p), choices);
    && Replay(p, FRESH, events).Some? && (done <==> r.e.ctl.Finished?) && (done ==> ClosedStream(p, events))
    && Emitted(p, choices, r.e, events, r) && (Begins(events) == r.e.log <==> NoSlip(p, choices))
  }

  /** The emitter from the live tree: walk it, refuse a tree without children, then step. */
  method ProjectTree(root: Action, flags: seq<bv32>, choices: seq<Choice>) returns (result: Projection)
    requires |flags| == Size(root)
    ensures result.TooFewNodes? <==> Size(root) < 2
    ensures result.Projected? ==>
      exists p: Pipeline :: PipelineOf(p, root, flags) && ProjectionOf(p, choices, result.events, result.done)
  {
    var _, nodes := StageWalk(root, None, 0, root.name, []);
    if |nodes| < 2 { return TooFewNodes; }
    var acts: seq<ActionInfo> := [];
    for i := 0 to |nodes|
      invariant |acts| == i && forall j | 0 <= j < i :: acts[j] == ActionInfo(Flat(root)[j].Group?, flags[j])
    {
      var action := StageActionOf(root, nodes, i);
      acts := acts + [ActionInfo(action.Group?, flags[i])];
    }
    WalkIsPipeline(nodes, root, acts);
    var p := Pipeline(nodes, acts);
    var events, _, _, done := EmitStageProjection(p, choices);
    assert PipelineOf(p, root, flags) && ProjectionOf(p, choices, events, done);
    result := Projected(events, done);
  }

  // ---------- Where the frontier is not enough ----------

  /** root(0) = [once-per-function leaf 1, plain leaf 2]. */
  const ONCE_FIRST := Pipeline(
    [StageNode("u", None, 0, [1, 2]), StageNode("u:a", Some(0), 0, []), StageNode("u:b", Some(0), 1, [])],
    [ActionInfo(true, 0), ActionInfo(false, RULE_ONCEPERFUNC), ActionInfo(false, 0)])

  lemma OnceFirstIsValid()
    ensures ValidPipeline(ONCE_FIRST) && Kid(ONCE_FIRST, 0, 0) == 1 && Kid(ONCE_FIRST, 0, 1) == 2
  {
    var p := ONCE_FIRST;
    forall i | 1 <= i < 3 ensures LinkedUp(p.nodes, i) {}
    forall n, k | 0 <= n < 3 && 0 <= k < |p.nodes[n].children| ensures LinkedDown(p.nodes, n, k) {}
    assert TreeTable(p.nodes);
  }

  lemma OnceFirstFlags()
    ensures ONCE_FIRST.acts[1].Once() && !ONCE_FIRST.acts[2].Once() && !ONCE_FIRST.acts[2].OneAct()
    ensures forall n | 1 <= n < 3 :: !ONCE_FIRST.acts[n].Repeats()
  {
  }

  ghost predicate Reached(r: Run) {
    ValidPipeline(ONCE_FIRST) && ValidRun(ONCE_FIRST, r) && Reaches(ONCE_FIRST, First(ONCE_FIRST), r)
  }

  lemma QuietMove(r: Run) returns (r': Run)
    requires Reached(r) && r.e.ctl != Finished
    ensures Reached(r')
    ensures if Starting(r.e) then r'.e == Resume(ONCE_FIRST, r.e) && r'.g.was == r.e.ended && r'.begun == r.begun + [r.e.ctl.node]
      else r' == r.(e := Step(ONCE_FIRST, r.e, QUIET))
  {
    r' := Advance(ONCE_FIRST, r, QUIET);
    ReachStep(ONCE_FIRST, First(ONCE_FIRST), r, QUIET);
    ReachedIsSeen(ONCE_FIRST, r);
    if Starting(r.e) { StartIsArmed(ONCE_FIRST, r.g, r.e); }
  }

  /** A leaf pauses, runs and returns without a change. */
  lemma LeafTurn(r: Run, n: nat) returns (r': Run)
    requires Reached(r) && 1 <= n < 3 && r.e.ctl == Enter(n) && !r.e.ended[n]
    ensures Reached(r') && r'.e.ctl == Back(n) && r'.e.ended == r.e.ended[n := n == 1]
    ensures r'.begun == r.begun + [n] && r'.g.was == r.e.ended
  {
    OnceFirstFlags();
    var apply := QuietMove(r);
    var pass := QuietMove(apply);
    r' := QuietMove(pass);
  }

  lemma BackTurn(r: Run, n: nat) returns (r': Run)
    requires Reached(r) && 1 <= n < 3 && r.e.ctl == Back(n)
    ensures Reached(r') && r'.e.ctl == (if n == 1 then Enter(2) else PassEnd(0)) && r'.e.ended == r.e.ended
    ensures r'.begun == r.begun && r'.g == r.g
  {
    OnceFirstIsValid();
    r' := QuietMove(r);
  }

  lemma FirstTurn() returns (r: Run)
    ensures Reached(r) && r.e.ctl == Enter(1) && r.begun == [0] && forall n | 0 <= n < 3 :: !r.e.ended[n]
  {
    OnceFirstIsValid();
    ReachSelf(ONCE_FIRST, First(ONCE_FIRST));
    r := QuietMove(First(ONCE_FIRST));
  }

  /** The run from the root's start to the end of its first pass. */
  lemma RunToPassEnd() returns (r: Run)
    ensures Reached(r) && r.e.ctl == PassEnd(0) && r.begun == [0, 1, 2] && r.g.was[1]
  {
    var enter := FirstTurn();
    var first := LeafTurn(enter, 1);
    var second := BackTurn(first, 1);
    var ran := LeafTurn(second, 2);
    r := BackTurn(ran, 2);
  }

  /** A concrete run whose stream begins 0, 1, 2 while the executor starts 0, 1, 2 and 1 again:
      the pause at node 2 arms only node 2, because node 1 has ended, and the restart clears
      that status. */
  lemma RestartSlips() returns (choices: seq<Choice>)
    ensures ValidPipeline(ONCE_FIRST)
    ensures var r := Drive(ONCE_FIRST, First(ONCE_FIRST), choices);
      r.begun == [0, 1, 2] && r.e.log == [0, 1, 2, 1]
  {
    OnceFirstIsValid();
    var last := RunToPassEnd();
    ReachedIsSeen(ONCE_FIRST, last);
    var again := Choice(false, Restart);
    UnseenStarts(ONCE_FIRST, last, again, QUIET);
    choices := ThenTwo(ONCE_FIRST, last, again, QUIET);
  }

  lemma ThenTwo(p: Pipeline, r: Run, a: Choice, b: Choice) returns (cs: seq<Choice>)
    requires ValidPipeline(p) && ValidRun(p, r) && Reaches(p, First(p), r)
    ensures Drive(p, First(p), cs) == Advance(p, Advance(p, r, a), b)
  {
    var before: seq<Choice> :| Restartless(before) && Drive(p, First(p), before) == r;
    cs := before + [a, b];
    assert cs[..|before|] == before && cs[..|before| + 2] == cs;
    TwoMore(p, First(p), cs, |before|);
  }
}
