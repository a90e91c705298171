/**
 * The group executor that the projection steps (src/action.rs:373-446, 995-1068, 1263-1372),
 * one `perform` transition at a time, and the completeness of the break-point frontier.
 */
module StageExecutor {
  import opened Common
  import opened StageTree
  import opened StageCandidates

  // The Rust recursion perform -> apply_children -> perform is the parent chain of the node in
  // control, and a group's cursor is the slot of the child that returns to it, so one control
  // point stands for the whole call stack.  Change counts matter only through `lcount < count`
  // (`grew`) and `count > 0` (`any`).

  datatype Control =
    | Enter(node: nat)    // perform() called on `node`
    | Apply(node: nat)    // past the start break, apply() about to run one pass
    | PassEnd(node: nat)  // that pass is over
    | Back(node: nat)     // perform() on `node` has returned
    | Finished

  /** `log` lists the applications started so far; `tests` are the count_tests fields. */
  datatype Exec = Exec(
    ctl: Control, ended: seq<bool>, grew: seq<bool>, any: seq<bool>, tests: seq<nat>,
    ret: bool, curstart: int, log: seq<nat>)

  /** What the pipeline itself decides at one transition: whether a leaf's apply changed the
      function, and how the root's restart loop continues after a full pass. */
  datatype RootChoice =
    | Converge  // nothing pending, or one restart too many: the restart count becomes -1
    | Restart   // the flow is regenerated and all children are reset
    | Yield     // during jump-table recovery: the pass ends as it is
    | Forgo     // no restart flow is installed: the restart is counted, nothing is reset
  datatype Choice = Choice(changed: bool, root: RootChoice)

  ghost predicate ValidExec(p: Pipeline, e: Exec) {
    && ValidPipeline(p)
    && |e.ended| == |e.grew| == |e.any| == |e.tests| == |p.nodes|
    && (e.ctl != Finished ==> e.ctl.node < |p.nodes|)
  }

  function FirstChild(p: Pipeline): nat
    requires ValidPipeline(p)
  {
    Kid(p, 0, 0)
  }

  /** A start that meets no break point: count_tests advances. */
  function StartThrough(p: Pipeline, e: Exec): Exec
    requires ValidExec(p, e) && e.ctl.Enter?
  {
    var n := e.ctl.node;
    e.(ctl := Apply(n), grew := e.grew[n := false], any := e.any[n := false],
       tests := e.tests[n := e.tests[n] + 1], log := e.log + [n])
  }

  /** Resuming from STATUS_BREAKSTARTHIT: the same start, without the count_tests increment. */
  function Resume(p: Pipeline, e: Exec): Exec
    requires ValidExec(p, e) && e.ctl.Enter?
  {
    var n := e.ctl.node;
    e.(ctl := Apply(n), grew := e.grew[n := false], any := e.any[n := false], log := e.log + [n])
  }

  /** The tail of perform(): status END for the once-flags, and the count handed to the caller. */
  function Complete(p: Pipeline, e: Exec): Exec
    requires ValidExec(p, e) && e.ctl.PassEnd?
  {
    var n := e.ctl.node;
    e.(ctl := Back(n), ret := e.any[n],
       ended := e.ended[n := p.acts[n].Once() || (p.acts[n].OneAct() && e.any[n])])
  }

  /** A restart that is counted but not carried out, for want of a restart flow. */
  function Counted(e: Exec, choice: Choice): Exec {
    if e.ctl == PassEnd(0) && choice.root == Forgo then e.(curstart := e.curstart + 1) else e
  }

  function Step(p: Pipeline, e: Exec, choice: Choice): (e': Exec)
    requires ValidExec(p, e) && e.ctl != Finished
    ensures ValidExec(p, e')
  {
    match e.ctl
    case Enter(n) =>
      if e.ended[n] then e.(ctl := Back(n), ret := false) else StartThrough(p, e)
    case Apply(n) =>
      if p.nodes[n].children != [] then e.(ctl := Enter(Kid(p, n, 0)))
      else if p.acts[n].isGroup then e.(ctl := PassEnd(n))
      else e.(ctl := PassEnd(n), grew := e.grew[n := choice.changed], any := e.any[n := e.any[n] || choice.changed])
    case PassEnd(n) =>
      if n == 0 && choice.root == Restart then
        e.(ctl := Enter(FirstChild(p)), ended := seq(|e.ended|, i => i == 0 && e.ended[0]), curstart := e.curstart + 1)
      else if n == 0 && choice.root == Converge then Complete(p, e).(curstart := -1)
      else
        var e1 := Counted(e, choice);
        if e.grew[n] && p.acts[n].Repeats() then e1.(ctl := Apply(n), grew := e.grew[n := false]) else Complete(p, e1)
    case Back(n) =>
      RootRow(p.nodes, n);
      if p.nodes[n].parent.None? then e.(ctl := Finished) else
        assert LinkedUp(p.nodes, n);
        var up, next := p.nodes[n].parent.value, p.nodes[n].indexInParent + 1;
        e.(grew := e.grew[up := e.grew[up] || e.ret], any := e.any[up := e.any[up] || e.ret],
           ctl := if next < |p.nodes[up].children| then Enter(Kid(p, up, next)) else PassEnd(up))
  }

  function Initial(p: Pipeline): Exec
    requires ValidPipeline(p)
  {
    var n := |p.nodes|;
    Exec(Enter(0), seq(n, _ => false), seq(n, _ => false), seq(n, _ => false), seq(n, _ => 0), false, 0, [])
  }

  /** About to start an application: the point where the start break is tested. */
  predicate Starting(e: Exec) {
    e.ctl.Enter? && e.ctl.node < |e.ended| && !e.ended[e.ctl.node]
  }

  // ---------- Completeness of the frontier ----------

  /** The child of `x` on the path from `x` down to `n`. */
  ghost function Toward(p: Pipeline, x: nat, n: nat): (q: nat)
    requires ValidPipeline(p) && n < |p.nodes| && ProperAnc(p, x, n)
    ensures x < q < |p.nodes| && p.nodes[q].parent == Some(x) && AncOrSelf(p, q, n)
    ensures p.nodes[q].indexInParent < |p.nodes[x].children| && Kid(p, x, p.nodes[q].indexInParent) == q
    decreases n
  {
    assert LinkedUp(p.nodes, n);
    var up := p.nodes[n].parent.value;
    if up == x then n else
      var q := Toward(p, x, up);
      q
  }

  ghost predicate PathOpen(p: Pipeline, ended: seq<bool>, n: nat)
    requires Statuses(p, ended) && n < |p.nodes|
  {
    forall a | 0 <= a < |p.nodes| && AncOrSelf(p, a, n) :: !ended[a]
  }

  ghost predicate KidsEnded(p: Pipeline, ended: seq<bool>, g: nat, lo: nat, hi: nat)
    requires Statuses(p, ended) && g < |p.nodes| && hi <= |p.nodes[g].children|
  {
    forall j | lo <= j < hi :: ended[Kid(p, g, j)]
  }

  /** The executor somewhere between the pause at `n` (statuses `was`, break points
      armed on `armed`) and the next application start. */
  datatype Gap = Gap(was: seq<bool>, n: nat, armed: set<nat>)

  ghost predicate ValidGap(p: Pipeline, g: Gap) {
    Statuses(p, g.was) && g.n < |p.nodes| && PathOpen(p, g.was, g.n)
  }

  /** Control is still inside the application of `n` itself. */
  ghost predicate Inside(p: Pipeline, g: Gap, e: Exec)
    requires ValidGap(p, g) && ValidExec(p, e)
  {
    && e.ended == g.was && Frontier(p, g.was, g.n) <= g.armed
    && match e.ctl
       case Apply(x) => x == g.n && !e.grew[x]
       case PassEnd(x) => x == g.n && (p.acts[x].isGroup ==> !e.grew[x]) && KidsEnded(p, g.was, x, 0, |p.nodes[x].children|)
       case Enter(c) => KidSlot(p, g.n, c) && !e.grew[g.n] && KidsEnded(p, g.was, g.n, 0, p.nodes[c].indexInParent)
       case Back(c) => KidSlot(p, g.n, c) && !e.grew[g.n] && !e.ret && KidsEnded(p, g.was, g.n, 0, p.nodes[c].indexInParent + 1)
       case Finished => false
  }

  /** Every later sibling of the path child `q` had already ended at the pause. */
  ghost predicate NoneAfter(p: Pipeline, g: Gap, q: nat)
    requires ValidGap(p, g) && 0 < q < |p.nodes|
  {
    assert LinkedUp(p.nodes, q);
    KidsEnded(p, g.was, p.nodes[q].parent.value, p.nodes[q].indexInParent + 1, |p.nodes[p.nodes[q].parent.value].children|)
  }

  ghost predicate Again(p: Pipeline, e: Exec, x: nat)
    requires ValidExec(p, e) && x < |p.nodes|
  {
    (p.acts[x].Repeats() || x == 0) && !e.grew[x]
  }

  /** Control has returned to the proper ancestor `x` of `n`, whose path child is `q`. */
  ghost predicate Above(p: Pipeline, g: Gap, e: Exec, x: nat)
    requires ValidGap(p, g) && ValidExec(p, e) && x < |p.nodes|
  {
    && ProperAnc(p, x, g.n)
    && Climb(p, g.was, Toward(p, x, g.n)) <= g.armed
    && (forall y | 0 <= y < |p.nodes| && !AncOrSelf(p, y, g.n) :: e.ended[y] == g.was[y])
    && (forall a | 0 <= a < |p.nodes| && AncOrSelf(p, a, x) :: !e.ended[a])
    && var q := Toward(p, x, g.n);
       var iq := p.nodes[q].indexInParent;
       match e.ctl
       case Apply(y) => y == x && NoneAfter(p, g, q) && Again(p, e, x)
       case PassEnd(y) => y == x && NoneAfter(p, g, q)
       case Enter(c) => KidSlot(p, x, c) &&
           var k := p.nodes[c].indexInParent;
           || (k > iq && KidsEnded(p, g.was, x, iq + 1, k))
           || (NoneAfter(p, g, q) && Again(p, e, x) && KidsEnded(p, e.ended, x, 0, k))
       case Back(c) => KidSlot(p, x, c) &&
           var k := p.nodes[c].indexInParent;
           || (k >= iq && KidsEnded(p, g.was, x, iq + 1, k + 1))
           || (NoneAfter(p, g, q) && Again(p, e, x) && !e.ret && KidsEnded(p, e.ended, x, 0, k + 1))
       case Finished => false
  }

  ghost predicate KidSlot(p: Pipeline, x: nat, c: nat)
    requires ValidPipeline(p) && x < |p.nodes| && c < |p.nodes|
  {
    p.nodes[c].parent == Some(x) && p.nodes[c].indexInParent < |p.nodes[x].children| && Kid(p, x, p.nodes[c].indexInParent) == c
  }

  /** A restart has just re-entered the pipeline's first child. */
  ghost predicate Restarted(p: Pipeline, g: Gap, e: Exec)
    requires ValidGap(p, g) && ValidExec(p, e)
  {
    e.ctl == Enter(FirstChild(p)) && FirstChild(p) in g.armed && !e.ended[0] && !e.ended[FirstChild(p)]
  }

  ghost predicate Unwound(e: Exec) {
    e.ctl == Back(0) || e.ctl == Finished
  }

  ghost predicate Covered(p: Pipeline, g: Gap, e: Exec) {
    && ValidGap(p, g) && ValidExec(p, e)
    && (Inside(p, g, e) || Unwound(e) || Restarted(p, g, e) || exists x: nat | x < |p.nodes| :: Above(p, g, e, x))
  }

  /** The next application to start is always one of the armed candidates, and the pause
      there opens the next gap. */
  lemma StartIsArmed(p: Pipeline, g: Gap, e: Exec)
    requires Covered(p, g, e) && Starting(e)
    ensures e.ctl.node in g.armed
    ensures PathOpen(p, e.ended, e.ctl.node)
  {
    var c := e.ctl.node;
    if Inside(p, g, e) {
      FirstRunnableAt(p, g.was, g.n, 0, p.nodes[c].indexInParent);
    } else if Restarted(p, g, e) {
    } else {
      var x: nat :| x < |p.nodes| && Above(p, g, e, x);
      AboveStart(p, g, e, x);
    }
    PathOpenBelow(p, e.ended, c);
  }

  lemma AboveStart(p: Pipeline, g: Gap, e: Exec, x: nat)
    requires ValidGap(p, g) && ValidExec(p, e) && x < |p.nodes| && Above(p, g, e, x) && Starting(e)
    ensures e.ctl.node in Climb(p, g.was, Toward(p, x, g.n))
  {
    var c := e.ctl.node;
    var q := Toward(p, x, g.n);
    var k, iq := p.nodes[c].indexInParent, p.nodes[q].indexInParent;
    OffPathKids(p, g, x);
    assert e.ended[c] == g.was[c] || k == iq;
    if k > iq && KidsEnded(p, g.was, x, iq + 1, k) {
      FirstRunnableAt(p, g.was, x, iq + 1, k);
    } else {
      assert NoneAfter(p, g, q) && KidsEnded(p, e.ended, x, 0, k);
      forall j | 0 <= j < k ensures g.was[Kid(p, x, j)] { assert e.ended[Kid(p, x, j)]; }
      assert AncOrSelf(p, q, g.n);
      FirstRunnableMeaning(p, g.was, x, iq + 1);
      FirstRunnableAt(p, g.was, x, 0, k);
    }
  }

  lemma PathOpenBelow(p: Pipeline, ended: seq<bool>, c: nat)
    requires Statuses(p, ended) && 0 < c < |p.nodes| && !ended[c]
    requires p.nodes[c].parent.Some? && p.nodes[c].parent.value < |p.nodes| && PathOpen(p, ended, p.nodes[c].parent.value)
    ensures PathOpen(p, ended, c)
  {
    assert LinkedUp(p.nodes, c);
  }

  /** Of the children of `x`, only the path child is an ancestor-or-self of `n`. */
  lemma OffPathKids(p: Pipeline, g: Gap, x: nat)
    requires ValidGap(p, g) && x < |p.nodes| && ProperAnc(p, x, g.n)
    ensures forall j | 0 <= j < |p.nodes[x].children| && j != p.nodes[Toward(p, x, g.n)].indexInParent :: !AncOrSelf(p, Kid(p, x, j), g.n)
  {
    forall j | 0 <= j < |p.nodes[x].children| && AncOrSelf(p, Kid(p, x, j), g.n)
      ensures j == p.nodes[Toward(p, x, g.n)].indexInParent
    {
      UniqueKidAbove(p, x, Kid(p, x, j), g.n);
    }
  }

  lemma {:induction false} UniqueKidAbove(p: Pipeline, x: nat, c: nat, n: nat)
    requires ValidPipeline(p) && n < |p.nodes| && c < |p.nodes| && ProperAnc(p, x, n)
    requires p.nodes[c].parent == Some(x) && AncOrSelf(p, c, n)
    ensures c == Toward(p, x, n)
    decreases n
  {
    assert LinkedUp(p.nodes, n);
    var up := p.nodes[n].parent.value;
    if c == n {
    } else {
      AncOrder(p, c, up);
      RootRow(p.nodes, c);
      assert LinkedUp(p.nodes, c);
      UniqueKidAbove(p, x, c, up);
    }
  }

  // ---------- Every silent transition keeps the gap covered ----------

  lemma StepInside(p: Pipeline, g: Gap, e: Exec, choice: Choice)
    requires ValidGap(p, g) && ValidExec(p, e) && Inside(p, g, e) && !Starting(e)
    requires e.ctl == PassEnd(0) && choice.root == Restart ==> !g.was[FirstChild(p)]
    ensures Covered(p, g, Step(p, e, choice))
  {
    match e.ctl
    case Apply(x) =>
    case Enter(c) =>
    case Back(c) => InsideBack(p, g, e, choice);
    case PassEnd(x) =>
      if x > 0 && Step(p, e, choice).ctl.Back? { InsideLeaves(p, g, e, choice); }
  }

  lemma InsideBack(p: Pipeline, g: Gap, e: Exec, choice: Choice)
    requires ValidGap(p, g) && ValidExec(p, e) && Inside(p, g, e) && e.ctl.Back?
    ensures Inside(p, g, Step(p, e, choice))
  {
    assert LinkedUp(p.nodes, e.ctl.node);
  }

  /** The application of `n` is over and control goes back to its parent. */
  lemma InsideLeaves(p: Pipeline, g: Gap, e: Exec, choice: Choice)
    requires ValidGap(p, g) && ValidExec(p, e) && Inside(p, g, e) && e.ctl.PassEnd? && e.ctl.node > 0
    requires Step(p, e, choice).ctl.Back?
    ensures Covered(p, g, Step(p, e, choice))
  {
    var e', x := Step(p, e, choice), e.ctl.node;
    assert LinkedUp(p.nodes, x);
    var up := p.nodes[x].parent.value;
    UniqueKidAbove(p, up, x, x);
    OpenAbove(p, g, x, up);
    assert Above(p, g, e', up);
  }

  /** The path above `x` is open, and `x` itself is not on it. */
  lemma OpenAbove(p: Pipeline, g: Gap, x: nat, up: nat)
    requires ValidGap(p, g) && 0 < x < |p.nodes| && p.nodes[x].parent == Some(up) && up < x
    ensures forall a | 0 <= a < |p.nodes| && AncOrSelf(p, a, up) :: AncOrSelf(p, a, x) && a != x
  {
    forall a | 0 <= a < |p.nodes| && AncOrSelf(p, a, up) ensures AncOrSelf(p, a, x) && a != x { AncOrder(p, a, up); }
  }

  lemma StepAbove(p: Pipeline, g: Gap, e: Exec, choice: Choice, x: nat)
    requires ValidGap(p, g) && ValidExec(p, e) && x < |p.nodes| && Above(p, g, e, x) && !Starting(e)
    requires e.ctl == PassEnd(0) && choice.root == Restart ==> !g.was[FirstChild(p)]
    ensures Covered(p, g, Step(p, e, choice))
  {
    match e.ctl
    case Apply(y) => AboveApply(p, g, e, choice, x);
    case Enter(c) => AboveEnter(p, g, e, choice, x);
    case Back(c) => AboveBack(p, g, e, choice, x);
    case PassEnd(y) => PassEndAbove(p, g, e, choice, x);
  }

  lemma AboveApply(p: Pipeline, g: Gap, e: Exec, choice: Choice, x: nat)
    requires ValidGap(p, g) && ValidExec(p, e) && x < |p.nodes| && Above(p, g, e, x) && e.ctl.Apply?
    ensures Above(p, g, Step(p, e, choice), x)
  {
  }

  lemma AboveEnter(p: Pipeline, g: Gap, e: Exec, choice: Choice, x: nat)
    requires ValidGap(p, g) && ValidExec(p, e) && x < |p.nodes| && Above(p, g, e, x) && e.ctl.Enter? && !Starting(e)
    ensures Above(p, g, Step(p, e, choice), x)
  {
    OffPathKids(p, g, x);
  }

  lemma AboveBack(p: Pipeline, g: Gap, e: Exec, choice: Choice, x: nat)
    requires ValidGap(p, g) && ValidExec(p, e) && x < |p.nodes| && Above(p, g, e, x) && e.ctl.Back?
    ensures Above(p, g, Step(p, e, choice), x)
  {
    assert LinkedUp(p.nodes, e.ctl.node);
  }

  lemma PassEndAbove(p: Pipeline, g: Gap, e: Exec, choice: Choice, x: nat)
    requires ValidGap(p, g) && ValidExec(p, e) && x < |p.nodes| && Above(p, g, e, x) && e.ctl == PassEnd(x)
    requires x == 0 && choice.root == Restart ==> !g.was[FirstChild(p)]
    ensures Covered(p, g, Step(p, e, choice))
  {
    if x == 0 && choice.root == Restart {
      RestartAbove(p, g, e, choice);
    } else if Step(p, e, choice).ctl.Apply? {
      RepeatAbove(p, g, e, choice, x);
    } else if x > 0 {
      LeaveAbove(p, g, e, choice, x);
    }
  }

  lemma RestartAbove(p: Pipeline, g: Gap, e: Exec, choice: Choice)
    requires ValidGap(p, g) && ValidExec(p, e) && Above(p, g, e, 0) && e.ctl == PassEnd(0)
    requires choice.root == Restart && !g.was[FirstChild(p)]
    ensures Restarted(p, g, Step(p, e, choice))
  {
    var q := Toward(p, 0, g.n);
    FirstRunnableMeaning(p, g.was, 0, p.nodes[q].indexInParent + 1);
    assert LinkedUp(p.nodes, q);
    FirstRunnableAt(p, g.was, 0, 0, 0);
    assert AncOrSelf(p, 0, 0);
  }

  lemma RepeatAbove(p: Pipeline, g: Gap, e: Exec, choice: Choice, x: nat)
    requires ValidGap(p, g) && ValidExec(p, e) && x < |p.nodes| && Above(p, g, e, x) && e.ctl == PassEnd(x)
    requires !(x == 0 && choice.root == Restart) && Step(p, e, choice).ctl.Apply?
    ensures Above(p, g, Step(p, e, choice), x)
  {
  }

  lemma LeaveAbove(p: Pipeline, g: Gap, e: Exec, choice: Choice, x: nat)
    requires ValidGap(p, g) && ValidExec(p, e) && 0 < x < |p.nodes| && Above(p, g, e, x) && e.ctl == PassEnd(x)
    requires Step(p, e, choice).ctl.Back?
    ensures Covered(p, g, Step(p, e, choice))
  {
    var e' := Step(p, e, choice);
    var q := Toward(p, x, g.n);
    FirstRunnableMeaning(p, g.was, x, p.nodes[q].indexInParent + 1);
    assert LinkedUp(p.nodes, q) && LinkedUp(p.nodes, x);
    var up := p.nodes[x].parent.value;
    ProperUp(p, x, g.n);
    UniqueKidAbove(p, up, x, g.n);
    OpenAbove(p, g, x, up);
    assert Above(p, g, e', up);
  }

  /** The parent of a proper ancestor is a proper ancestor. */
  lemma ProperUp(p: Pipeline, x: nat, n: nat)
    requires ValidPipeline(p) && 0 < x < |p.nodes| && n < |p.nodes| && ProperAnc(p, x, n)
    ensures p.nodes[x].parent.Some? && AncOrSelf(p, x, n)
    ensures ProperAnc(p, p.nodes[x].parent.value, n)
  {
    assert LinkedUp(p.nodes, x) && LinkedUp(p.nodes, n);
    assert AncOrSelf(p, p.nodes[x].parent.value, x);
    AncTransitive(p, p.nodes[x].parent.value, x, p.nodes[n].parent.value);
  }

  lemma StepCovered(p: Pipeline, g: Gap, e: Exec, choice: Choice)
    requires Covered(p, g, e) && !Starting(e) && e.ctl != Finished
    requires e.ctl == PassEnd(0) && choice.root == Restart ==> !g.was[FirstChild(p)]
    ensures Covered(p, g, Step(p, e, choice))
  {
    if Inside(p, g, e) {
      StepInside(p, g, e, choice);
    } else if !Unwound(e) {
      var x: nat :| x < |p.nodes| && Above(p, g, e, x);
      StepAbove(p, g, e, choice, x);
    }
  }

  /** Resuming at a pause, with the frontier of that pause armed, opens a covered gap. */
  lemma ResumeCovered(p: Pipeline, e: Exec, armed: set<nat>)
    requires ValidExec(p, e) && Starting(e) && PathOpen(p, e.ended, e.ctl.node)
    requires Frontier(p, e.ended, e.ctl.node) <= armed
    ensures Covered(p, Gap(e.ended, e.ctl.node, armed), Resume(p, e))
  {
    assert Inside(p, Gap(e.ended, e.ctl.node, armed), Resume(p, e));
  }

  // ---------- Restarts ----------

  /** After a restart the pipeline's first child is the next to start; the armed frontier
      contains it if and only if it had not ended when the frontier was computed. */
  lemma RestartSeen(p: Pipeline, g: Gap, e: Exec, choice: Choice)
    requires Covered(p, g, e) && e.ctl == PassEnd(0) && choice.root == Restart
    requires g.armed == Frontier(p, g.was, g.n)
    ensures Starting(Step(p, e, choice)) && Step(p, e, choice).ctl.node == FirstChild(p)
    ensures FirstChild(p) in g.armed <==> !g.was[FirstChild(p)]
  {
    if FirstChild(p) in g.armed {
      FrontierSound(p, g.was, g.n, FirstChild(p));
    } else if !g.was[FirstChild(p)] {
      StepCovered(p, g, e, choice);
      StartIsArmed(p, g, Step(p, e, choice));
    }
  }
}
