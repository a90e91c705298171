/**
 * The in-process worker pool and the collection pass (examples/parallel_decompile.rs:684-729,
 * 845-850, 1085-1118).
 */
module ParallelPool {
  import opened Common
  import opened Sorting

  // Whether a printed text starts with the run-level typedef block is left to the run:
  // `carried` may be any assignment, which covers both a once-per-process latch and a block in
  // every document.

  datatype Outcome = Done(text: string) | Failed(stage: string, message: string) | Panic(message: string)

  /** What decompiling function `i` yields, apart from the typedef block. */
  datatype Verdict = Prints(body: string) | Errs(stage: string, message: string) | Panics(message: string)

  datatype Corpus = Corpus(verdict: nat -> Verdict)

  // ---------- Text of one outcome ----------

  /** Unicode White_Space, the set `trim_end` removes. */
  predicate Blank(c: char) {
    var n := c as int;
    9 <= n <= 13 || n == 32 || n == 0x85 || n == 0xA0 || n == 0x1680 || 0x2000 <= n <= 0x200A
    || n == 0x2028 || n == 0x2029 || n == 0x202F || n == 0x205F || n == 0x3000
  }

  function TrimEnd(s: string): (t: string)
    ensures t <= s && (t != [] ==> !Blank(t[|t| - 1])) && forall i | |t| <= i < |s| :: Blank(s[i])
  {
    if s == [] || !Blank(s[|s| - 1]) then s else TrimEnd(s[..|s| - 1])
  }

  const PREAMBLE_HEAD := "\ntypedef unsigned char byte;\n"
  const TYPEDEF_PREAMBLE: string :=
    PREAMBLE_HEAD + "typedef unsigned long undefined;\ntypedef unsigned short undefined2;\n" +
    "typedef unsigned long undefined4;\ntypedef unsigned long long undefined8;\n" +
    PREAMBLE_TAIL
  const PREAMBLE_TAIL := "typedef struct { char _anon[256]; } _struct;\n"

  /** `strip_typedef_preamble`. */
  function Strip(text: string): (string, bool) {
    if TYPEDEF_PREAMBLE <= text then (text[|TYPEDEF_PREAMBLE|..], true) else (text, false)
  }

  function OutcomeOf(v: Verdict, carried: bool): Outcome {
    match v
    case Prints(body) => Done(TrimEnd((if carried then TYPEDEF_PREAMBLE else "") + body))
    case Errs(stage, message) => Failed(stage, message)
    case Panics(message) => Panic(message)
  }

  /** The per-function document the driver writes; nothing for a failed function. */
  function PureText(o: Outcome): string {
    match o case Done(text) => Strip(text).0 case _ => ""
  }

  ghost predicate Visible(body: string) {
    exists i | 0 <= i < |body| :: !Blank(body[i])
  }

  lemma {:induction false} TrimEndConcat(a: string, b: string)
    ensures TrimEnd(a + b) == if Visible(b) then a + TrimEnd(b) else TrimEnd(a)
    decreases |b|
  {
    if b == [] {
      assert a + b == a;
    } else {
      var last, init := b[|b| - 1], b[..|b| - 1];
      assert (a + b)[|a + b| - 1] == last && (a + b)[..|a + b| - 1] == a + init;
      if Blank(last) {
        TrimEndConcat(a, init);
        if Visible(b) {
          var i :| 0 <= i < |b| && !Blank(b[i]);
          assert !Blank(init[i]);
        }
        if Visible(init) {
          var i :| 0 <= i < |init| && !Blank(init[i]);
          assert !Blank(b[i]);
        }
      }
    }
  }

  lemma BlankTrims(s: string)
    ensures TrimEnd(s) == [] <==> !Visible(s)
  {
    if TrimEnd(s) != [] { assert !Blank(s[|TrimEnd(s)| - 1]); }
  }

  /** The block ends in a newline, so trimming it alone cuts it short of itself. */
  lemma PreambleTrims()
    ensures 0 < |TrimEnd(TYPEDEF_PREAMBLE)| < |TYPEDEF_PREAMBLE|
  {
    assert TYPEDEF_PREAMBLE[1] == PREAMBLE_HEAD[1] == 't' && !Blank('t');
    BlankTrims(TYPEDEF_PREAMBLE);
    assert TYPEDEF_PREAMBLE[|TYPEDEF_PREAMBLE| - 1] == PREAMBLE_TAIL[|PREAMBLE_TAIL| - 1] == '\n' && Blank('\n');
    if |TrimEnd(TYPEDEF_PREAMBLE)| == |TYPEDEF_PREAMBLE| { assert TrimEnd(TYPEDEF_PREAMBLE) == TYPEDEF_PREAMBLE; }
  }

  /** The block is taken off exactly when the text begins with it, and the flag says so. */
  lemma StripExactly(text: string, rest: string, had: bool)
    ensures Strip(text) == (rest, had) <==> if had then text == TYPEDEF_PREAMBLE + rest else text == rest && !(TYPEDEF_PREAMBLE <= text)
  {
    if TYPEDEF_PREAMBLE <= text { assert text == TYPEDEF_PREAMBLE + text[|TYPEDEF_PREAMBLE|..]; }
    if text == TYPEDEF_PREAMBLE + rest { assert text[|TYPEDEF_PREAMBLE|..] == rest; }
  }

  /** The code points with the property White_Space. */
  lemma BlankList(c: char)
    ensures Blank(c) <==> c as int in {
      9, 10, 11, 12, 13, 32, 0x85, 0xA0, 0x1680, 0x2000, 0x2001, 0x2002, 0x2003, 0x2004, 0x2005, 0x2006,
      0x2007, 0x2008, 0x2009, 0x200A, 0x2028, 0x2029, 0x202F, 0x205F, 0x3000}
  {
  }

  /** With the block carried, stripping restores the body's own text exactly when the body
      has a visible character: otherwise trimming has already eaten into the block. */
  lemma CarriedStrip(body: string)
    ensures Strip(TrimEnd(TYPEDEF_PREAMBLE + body)).0 == TrimEnd(body) <==> Visible(body)
  {
    TrimEndConcat(TYPEDEF_PREAMBLE, body);
    BlankTrims(body);
    if Visible(body) {
      assert (TYPEDEF_PREAMBLE + TrimEnd(body))[|TYPEDEF_PREAMBLE|..] == TrimEnd(body);
    } else {
      PreambleTrims();
    }
  }

  /** Without it, exactly when the text does not itself begin with the block. */
  lemma BareStrip(body: string)
    ensures Strip(TrimEnd(body)).0 == TrimEnd(body) <==> !(TYPEDEF_PREAMBLE <= TrimEnd(body))
  {
  }

  ghost predicate Clean(v: Verdict) {
    v.Prints? ==> Visible(v.body) && !(TYPEDEF_PREAMBLE <= TrimEnd(v.body))
  }

  lemma PureTextIndependent(v: Verdict, carried: bool)
    requires Clean(v)
    ensures PureText(OutcomeOf(v, carried)) == PureText(OutcomeOf(v, false))
  {
    if v.Prints? {
      CarriedStrip(v.body);
      BareStrip(v.body);
      assert "" + v.body == v.body;
    }
  }

  // ---------- The pool ----------

  // A worker pops a job under the queue lock, takes a result slot from a separate atomic
  // counter, decompiles, and stores (job, outcome) under the results lock.

  datatype Pc =
    | Popping
    | Popped(job: nat)
    | Working(job: nat, slot: nat)
    | Finishing(job: nat, slot: nat, outcome: Outcome)
    | Exited

  datatype Pool = Pool(queue: seq<nat>, next: nat, results: seq<Option<(nat, Outcome)>>, pcs: seq<Pc>)

  datatype Move = Move(worker: nat, carried: bool)

  function Start(jobs: seq<nat>, workers: nat): Pool {
    Pool(jobs, 0, seq(|jobs|, _ => None), seq(workers, _ => Popping))
  }

  predicate Live(s: Pool, w: nat) {
    w < |s.pcs| && !s.pcs[w].Exited?
  }

  function Act(c: Corpus, s: Pool, m: Move): Pool
    requires Live(s, m.worker)
    requires s.pcs[m.worker].Finishing? ==> s.pcs[m.worker].slot < |s.results|
  {
    var w := m.worker;
    match s.pcs[w]
    case Popping =>
      if s.queue == [] then s.(pcs := s.pcs[w := Exited])
      else s.(pcs := s.pcs[w := Popped(s.queue[0])], queue := s.queue[1..])
    case Popped(job) => s.(pcs := s.pcs[w := Working(job, s.next)], next := s.next + 1)
    case Working(job, slot) => s.(pcs := s.pcs[w := Finishing(job, slot, OutcomeOf(c.verdict(job), m.carried))])
    case Finishing(job, slot, outcome) =>
      s.(pcs := s.pcs[w := Popping], results := s.results[slot := Some((job, outcome))])
  }

  // ---------- The pool invariant ----------

  function JobOf(pc: Pc): Option<nat> {
    match pc case Popped(j) => Some(j) case Working(j, _) => Some(j) case Finishing(j, _, _) => Some(j) case _ => None
  }

  function SlotOf(pc: Pc): Option<nat> {
    match pc case Working(_, k) => Some(k) case Finishing(_, k, _) => Some(k) case _ => None
  }

  ghost function Waits(pc: Pc): nat {
    if pc.Popped? then 1 else 0
  }

  /** Workers that have popped a job but not yet taken a slot. */
  ghost function Slotless(pcs: seq<Pc>): nat {
    SumOver(pcs, Waits)
  }

  ghost predicate Ascending(s: seq<nat>) {
    forall i, j | 0 <= i < j < |s| :: s[i] < s[j]
  }

  ghost predicate Inv(c: Corpus, jobs: seq<nat>, s: Pool) {
    && Ascending(jobs) && |s.results| == |jobs|
    && |s.queue| <= |jobs| && s.queue == jobs[|jobs| - |s.queue|..]
    // Slots handed out, slots still to be taken, and the queue make up the job list.
    && s.next + Slotless(s.pcs) + |s.queue| == |jobs|
    && HeldJobs(jobs, s) && StoredJobs(jobs, s) && HeldSlots(s)
    && (forall j | j in jobs :: j in s.queue || JobHeld(s, j) || JobStored(s, j))
    && (forall k: nat | k < |s.results| :: SlotAccounted(s, k))
    && AllGenuine(c, s)
    && (forall w | 0 <= w < |s.pcs| && s.pcs[w].Exited? :: s.queue == [])
  }

  ghost predicate JobHeld(s: Pool, j: nat) {
    exists w | 0 <= w < |s.pcs| :: JobOf(s.pcs[w]) == Some(j)
  }

  ghost predicate JobStored(s: Pool, j: nat) {
    exists k | 0 <= k < |s.results| :: s.results[k].Some? && s.results[k].value.0 == j
  }

  /** A job in a hand is in one hand only, has left the queue, and is not stored yet. */
  ghost predicate HeldJobs(jobs: seq<nat>, s: Pool) {
    && (forall w | 0 <= w < |s.pcs| && JobOf(s.pcs[w]).Some? :: Loose(jobs, s, JobOf(s.pcs[w]).value))
    && (forall v, w | 0 <= v < |s.pcs| && 0 <= w < |s.pcs| && v != w && JobOf(s.pcs[v]).Some? :: JobOf(s.pcs[v]) != JobOf(s.pcs[w]))
  }

  ghost predicate Loose(jobs: seq<nat>, s: Pool, j: nat) {
    j in jobs && j !in s.queue && !JobStored(s, j)
  }

  /** Stored jobs have left the queue and sit in one slot each. */
  ghost predicate StoredJobs(jobs: seq<nat>, s: Pool) {
    && (forall k | 0 <= k < |s.results| && s.results[k].Some? :: s.results[k].value.0 in jobs && s.results[k].value.0 !in s.queue)
    && (forall i, k | 0 <= i < |s.results| && 0 <= k < |s.results| && i != k && s.results[i].Some? && s.results[k].Some? ::
          s.results[i].value.0 != s.results[k].value.0)
  }

  /** A held slot is in one hand only, below the counter, and still empty. */
  ghost predicate HeldSlots(s: Pool) {
    && (forall w | 0 <= w < |s.pcs| && SlotOf(s.pcs[w]).Some? :: EmptyBelow(s, SlotOf(s.pcs[w]).value))
    && (forall v, w | 0 <= v < |s.pcs| && 0 <= w < |s.pcs| && v != w && SlotOf(s.pcs[v]).Some? :: SlotOf(s.pcs[v]) != SlotOf(s.pcs[w]))
  }

  ghost predicate EmptyBelow(s: Pool, k: nat) {
    k < s.next && k < |s.results| && s.results[k].None?
  }

  /** Slots below the counter are filled or in hand; the others are empty. */
  ghost predicate SlotAccounted(s: Pool, k: nat)
    requires k < |s.results|
  {
    if k < s.next then s.results[k].Some? || SlotHeld(s, k) else s.results[k].None?
  }

  ghost predicate SlotHeld(s: Pool, k: nat) {
    exists w | 0 <= w < |s.pcs| :: SlotOf(s.pcs[w]) == Some(k)
  }

  ghost predicate AllGenuine(c: Corpus, s: Pool) {
    && (forall w | 0 <= w < |s.pcs| && s.pcs[w].Finishing? :: Genuine(c, s.pcs[w].job, s.pcs[w].outcome))
    && (forall k | 0 <= k < |s.results| && s.results[k].Some? :: Genuine(c, s.results[k].value.0, s.results[k].value.1))
  }

  ghost predicate Genuine(c: Corpus, job: nat, o: Outcome) {
    o == OutcomeOf(c.verdict(job), true) || o == OutcomeOf(c.verdict(job), false)
  }

  lemma {:induction false} NoneSlotless(pcs: seq<Pc>)
    requires forall w | 0 <= w < |pcs| :: !pcs[w].Popped?
    ensures Slotless(pcs) == 0
    decreases |pcs|
  {
    if pcs != [] { NoneSlotless(pcs[..|pcs| - 1]); }
  }

  lemma StartInv(c: Corpus, jobs: seq<nat>, workers: nat)
    requires Ascending(jobs)
    ensures Inv(c, jobs, Start(jobs, workers))
  {
    NoneSlotless(Start(jobs, workers).pcs);
  }

  ghost predicate Ready(s: Pool, w: nat) {
    Live(s, w) && (s.pcs[w].Finishing? ==> s.pcs[w].slot < |s.results|)
  }

  lemma ActCounts(c: Corpus, s: Pool, m: Move)
    requires Ready(s, m.worker)
    ensures var s' := Act(c, s, m);
            s'.next + Slotless(s'.pcs) + |s'.queue| == s.next + Slotless(s.pcs) + |s.queue|
  {
    var w, s' := m.worker, Act(c, s, m);
    SumOverUpdate(s.pcs, Waits, w, s'.pcs[w]);
    assert s'.pcs == s.pcs[w := s'.pcs[w]];
  }

  lemma ActNext(c: Corpus, jobs: seq<nat>, s: Pool, m: Move)
    requires Inv(c, jobs, s) && Live(s, m.worker)
    ensures Ready(s, m.worker)
    ensures var s' := Act(c, s, m);
            && s'.next + Slotless(s'.pcs) + |s'.queue| == |jobs| && |s'.results| == |jobs|
            && s'.queue == jobs[|jobs| - |s'.queue|..]
            && (forall w | 0 <= w < |s'.pcs| && s'.pcs[w].Exited? :: s'.queue == [])
  {
    var w := m.worker;
    if s.pcs[w].Finishing? { assert EmptyBelow(s, SlotOf(s.pcs[w]).value); }
    ActCounts(c, s, m);
    var s' := Act(c, s, m);
    forall v | 0 <= v < |s'.pcs| && s'.pcs[v].Exited? ensures s'.queue == [] {
      if v != w { assert s.pcs[v].Exited?; }
    }
  }

  lemma ActHeldSlots(c: Corpus, jobs: seq<nat>, s: Pool, m: Move)
    requires Inv(c, jobs, s) && Ready(s, m.worker) && Act(c, s, m).next <= |s.results|
    ensures HeldSlots(Act(c, s, m))
  {
    var w, s' := m.worker, Act(c, s, m);
    forall v | 0 <= v < |s'.pcs| && SlotOf(s'.pcs[v]).Some? ensures EmptyBelow(s', SlotOf(s'.pcs[v]).value) {
      if v != w {
        assert EmptyBelow(s, SlotOf(s.pcs[v]).value);
        if s.pcs[w].Finishing? { assert SlotOf(s.pcs[v]) != SlotOf(s.pcs[w]); }
      } else if s.pcs[w].Popped? {
        assert SlotAccounted(s, s.next);
      } else {
        assert EmptyBelow(s, SlotOf(s.pcs[w]).value);
      }
    }
    forall u, v | 0 <= u < |s'.pcs| && 0 <= v < |s'.pcs| && u != v && SlotOf(s'.pcs[u]).Some?
      ensures SlotOf(s'.pcs[u]) != SlotOf(s'.pcs[v])
    {
      if u != w { assert EmptyBelow(s, SlotOf(s.pcs[u]).value); }
      if v != w && SlotOf(s.pcs[v]).Some? { assert EmptyBelow(s, SlotOf(s.pcs[v]).value); }
    }
  }

  lemma ActSlotAccounted(c: Corpus, jobs: seq<nat>, s: Pool, m: Move, k: nat)
    requires Inv(c, jobs, s) && Ready(s, m.worker) && k < |s.results|
    ensures SlotAccounted(Act(c, s, m), k)
  {
    var w, s' := m.worker, Act(c, s, m);
    assert SlotAccounted(s, k);
    if s.pcs[w].Finishing? { assert EmptyBelow(s, SlotOf(s.pcs[w]).value); }
    if k < s.next && s.results[k].None? {
      var v :| 0 <= v < |s.pcs| && SlotOf(s.pcs[v]) == Some(k);
      assert v == w || s'.pcs[v] == s.pcs[v];
      assert s'.results[k].Some? || SlotOf(s'.pcs[v]) == Some(k);
    } else if k == s.next && s.pcs[w].Popped? {
      assert SlotOf(s'.pcs[w]) == Some(k);
    }
  }

  /** Storing adds the worker's own job to the stored ones; nothing else is ever added. */
  lemma StoredGrows(c: Corpus, s: Pool, m: Move, j: nat)
    requires Ready(s, m.worker) && (s.pcs[m.worker].Finishing? ==> s.results[s.pcs[m.worker].slot].None?)
    ensures JobStored(Act(c, s, m), j) <==> JobStored(s, j) || (s.pcs[m.worker].Finishing? && s.pcs[m.worker].job == j)
  {
    var w, s' := m.worker, Act(c, s, m);
    if JobStored(s, j) {
      var k :| 0 <= k < |s.results| && s.results[k].Some? && s.results[k].value.0 == j;
      assert s'.results[k] == s.results[k];
    }
    if s.pcs[w].Finishing? && s.pcs[w].job == j {
      assert s'.results[s.pcs[w].slot].Some?;
    }
    if JobStored(s', j) {
      var k :| 0 <= k < |s'.results| && s'.results[k].Some? && s'.results[k].value.0 == j;
      assert s'.results[k] == s.results[k] || (s.pcs[w].Finishing? && k == s.pcs[w].slot);
    }
  }

  /** The head of the queue is a job nobody holds and no slot stores. */
  lemma HeadIsFresh(c: Corpus, jobs: seq<nat>, s: Pool)
    requires Inv(c, jobs, s) && s.queue != []
    ensures s.queue[0] in jobs && s.queue[0] !in s.queue[1..] && !JobStored(s, s.queue[0])
    ensures forall w | 0 <= w < |s.pcs| :: JobOf(s.pcs[w]) != Some(s.queue[0])
  {
    assert s.queue[0] == jobs[|jobs| - |s.queue|];
    assert s.queue[0] in s.queue;
    forall w | 0 <= w < |s.pcs| ensures JobOf(s.pcs[w]) != Some(s.queue[0]) {
      if JobOf(s.pcs[w]).Some? { assert Loose(jobs, s, JobOf(s.pcs[w]).value); }
    }
  }

  lemma ActHeldJobs(c: Corpus, jobs: seq<nat>, s: Pool, m: Move)
    requires Inv(c, jobs, s) && Ready(s, m.worker)
    ensures HeldJobs(jobs, Act(c, s, m))
  {
    var w, s' := m.worker, Act(c, s, m);
    if s.pcs[w].Finishing? { assert EmptyBelow(s, SlotOf(s.pcs[w]).value); }
    if s.queue != [] { HeadIsFresh(c, jobs, s); }
    forall v | 0 <= v < |s'.pcs| && JobOf(s'.pcs[v]).Some? ensures Loose(jobs, s', JobOf(s'.pcs[v]).value) {
      StoredGrows(c, s, m, JobOf(s'.pcs[v]).value);
      if JobOf(s'.pcs[v]) == JobOf(s.pcs[v]) {
        assert Loose(jobs, s, JobOf(s.pcs[v]).value);
        if v != w && s.pcs[w].Finishing? { assert JobOf(s.pcs[v]) != JobOf(s.pcs[w]); }
      }
    }
    forall u, v | 0 <= u < |s'.pcs| && 0 <= v < |s'.pcs| && u != v && JobOf(s'.pcs[u]).Some?
      ensures JobOf(s'.pcs[u]) != JobOf(s'.pcs[v])
    {
      if u != w && v != w { assert JobOf(s.pcs[u]) != JobOf(s.pcs[v]); }
    }
  }

  lemma ActStoredJobs(c: Corpus, jobs: seq<nat>, s: Pool, m: Move)
    requires Inv(c, jobs, s) && Ready(s, m.worker)
    ensures StoredJobs(jobs, Act(c, s, m))
  {
    var w, s' := m.worker, Act(c, s, m);
    if s.pcs[w].Finishing? {
      assert Loose(jobs, s, JobOf(s.pcs[w]).value);
      forall k | 0 <= k < |s.results| && s.results[k].Some? ensures s.results[k].value.0 != s.pcs[w].job {
        assert !JobStored(s, s.pcs[w].job);
      }
    }
  }

  /** A job leaves the queue only into its worker's hand. */
  lemma QueuedAccounted(c: Corpus, s: Pool, m: Move, j: nat)
    requires Ready(s, m.worker) && j in s.queue
    ensures var s' := Act(c, s, m); j in s'.queue || JobHeld(s', j)
  {
    var w, s' := m.worker, Act(c, s, m);
    if j !in s'.queue {
      assert s.queue == [s.queue[0]] + s.queue[1..];
      assert JobOf(s'.pcs[w]) == Some(j);
    }
  }

  /** It leaves a hand only into a slot. */
  lemma HeldAccounted(c: Corpus, s: Pool, m: Move, j: nat)
    requires Ready(s, m.worker) && JobHeld(s, j)
    ensures JobHeld(Act(c, s, m), j) || (s.pcs[m.worker].Finishing? && s.pcs[m.worker].job == j)
  {
    var w, s' := m.worker, Act(c, s, m);
    var v :| 0 <= v < |s.pcs| && JobOf(s.pcs[v]) == Some(j);
    assert v == w || s'.pcs[v] == s.pcs[v];
    assert JobOf(s'.pcs[v]) == Some(j) || (v == w && s.pcs[w].Finishing?);
  }

  lemma ActJobAccounted(c: Corpus, jobs: seq<nat>, s: Pool, m: Move, j: nat)
    requires Inv(c, jobs, s) && Ready(s, m.worker) && j in jobs
    ensures var s' := Act(c, s, m); j in s'.queue || JobHeld(s', j) || JobStored(s', j)
  {
    var w := m.worker;
    if s.pcs[w].Finishing? { assert EmptyBelow(s, SlotOf(s.pcs[w]).value); }
    StoredGrows(c, s, m, j);
    if j in s.queue {
      QueuedAccounted(c, s, m, j);
    } else if JobHeld(s, j) {
      HeldAccounted(c, s, m, j);
    }
  }

  lemma ActGenuine(c: Corpus, jobs: seq<nat>, s: Pool, m: Move)
    requires Inv(c, jobs, s) && Ready(s, m.worker)
    ensures AllGenuine(c, Act(c, s, m))
  {
  }

  lemma ActInv(c: Corpus, jobs: seq<nat>, s: Pool, m: Move)
    requires Inv(c, jobs, s) && Live(s, m.worker)
    ensures Ready(s, m.worker) && Inv(c, jobs, Act(c, s, m))
  {
    var s' := s;
    ActNext(c, jobs, s, m);
    s' := Act(c, s, m);
    ActHeldSlots(c, jobs, s, m);
    ActHeldJobs(c, jobs, s, m);
    ActStoredJobs(c, jobs, s, m);
    ActGenuine(c, jobs, s, m);
    forall k: nat | k < |s'.results| ensures SlotAccounted(s', k) { ActSlotAccounted(c, jobs, s, m, k); }
    forall j | j in jobs ensures j in s'.queue || JobHeld(s', j) || JobStored(s', j) { ActJobAccounted(c, jobs, s, m, j); }
  }

  // ---------- Runs ----------

  ghost function Run(c: Corpus, jobs: seq<nat>, workers: nat, moves: seq<Move>): (s: Pool)
    requires Ascending(jobs)
    ensures Inv(c, jobs, s) && |s.pcs| == workers
    decreases |moves|
  {
    if moves == [] then StartInv(c, jobs, workers); Start(jobs, workers)
    else
      var s, m := Run(c, jobs, workers, moves[..|moves| - 1]), moves[|moves| - 1];
      if Live(s, m.worker) then ActInv(c, jobs, s, m); Act(c, s, m) else s
  }

  ghost predicate Joined(s: Pool) {
    forall w | 0 <= w < |s.pcs| :: s.pcs[w].Exited?
  }

  /** Every slot holds an entry. */
  predicate Filled(s: Pool) {
    forall k: nat | k < |s.results| :: s.results[k].Some?
  }

  /** After the joins no slot is empty and every job sits in exactly one slot, whatever order
      the slots were filled in. */
  lemma JoinedIsComplete(c: Corpus, jobs: seq<nat>, workers: nat, moves: seq<Move>)
    requires Ascending(jobs) && workers >= 1 && Joined(Run(c, jobs, workers, moves))
    ensures var s := Run(c, jobs, workers, moves);
            && |s.results| == |jobs| && Filled(s)
            && (forall k: nat | k < |jobs| :: s.results[k].value.0 in jobs)
            && (forall j | j in jobs :: JobStored(s, j))
            && (forall i: nat, k: nat | i < k < |jobs| :: s.results[i].value.0 != s.results[k].value.0)
  {
    var s := Run(c, jobs, workers, moves);
    assert s.pcs[0].Exited?;
    NoneSlotless(s.pcs);
    forall k: nat | k < |jobs| ensures s.results[k].Some? {
      assert SlotAccounted(s, k) && !SlotHeld(s, k);
    }
    forall j | j in jobs ensures JobStored(s, j) {
      assert !JobHeld(s, j);
    }
  }

  // ---------- Every run ends ----------

  ghost function Rank(pc: Pc): nat {
    match pc
    case Popping => 1 case Popped(_) => 4 case Working(_, _) => 3 case Finishing(_, _, _) => 2 case Exited => 0
  }

  ghost function Fuel(s: Pool): nat {
    SumOver(s.pcs, Rank) + 5 * |s.queue|
  }

  lemma ActDrains(c: Corpus, s: Pool, m: Move)
    requires Ready(s, m.worker)
    ensures Fuel(Act(c, s, m)) < Fuel(s)
  {
    var s' := Act(c, s, m);
    SumOverUpdate(s.pcs, Rank, m.worker, s'.pcs[m.worker]);
    assert s'.pcs == s.pcs[m.worker := s'.pcs[m.worker]];
  }

  /** Every move of the sequence was made by a worker that was still live. */
  ghost predicate Productive(c: Corpus, jobs: seq<nat>, workers: nat, moves: seq<Move>)
    requires Ascending(jobs)
    decreases |moves|
  {
    moves != [] ==>
      && Productive(c, jobs, workers, moves[..|moves| - 1])
      && Live(Run(c, jobs, workers, moves[..|moves| - 1]), moves[|moves| - 1].worker)
  }

  /** Every run ends within a bound fixed by the numbers of jobs and workers; until the joins
      some worker can move. */
  lemma {:induction false} RunsEnd(c: Corpus, jobs: seq<nat>, workers: nat, moves: seq<Move>)
    requires Ascending(jobs) && Productive(c, jobs, workers, moves)
    ensures |moves| + Fuel(Run(c, jobs, workers, moves)) <= 5 * |jobs| + workers
    ensures Joined(Run(c, jobs, workers, moves)) || exists w :: Live(Run(c, jobs, workers, moves), w)
    decreases |moves|
  {
    var s := Run(c, jobs, workers, moves);
    if w :| 0 <= w < |s.pcs| && !s.pcs[w].Exited? { assert Live(s, w); }
    if moves == [] {
      AllPopping(s.pcs);
    } else {
      var before := moves[..|moves| - 1];
      RunsEnd(c, jobs, workers, before);
      ActInv(c, jobs, Run(c, jobs, workers, before), moves[|moves| - 1]);
      ActDrains(c, Run(c, jobs, workers, before), moves[|moves| - 1]);
    }
  }

  lemma {:induction false} AllPopping(pcs: seq<Pc>)
    requires forall w | 0 <= w < |pcs| :: pcs[w] == Popping
    ensures SumOver(pcs, Rank) == |pcs|
    decreases |pcs|
  {
    if pcs != [] { AllPopping(pcs[..|pcs| - 1]); }
  }

  // ---------- Ordering and collection ----------

  predicate ByIndex(a: (nat, Outcome), b: (nat, Outcome)) {
    a.0 <= b.0
  }

  function Entries(s: Pool): (entries: seq<(nat, Outcome)>)
    requires Filled(s)
    ensures |entries| == |s.results| && forall k | 0 <= k < |entries| :: Some(entries[k]) == s.results[k]
  {
    seq(|s.results|, k requires 0 <= k < |s.results| => s.results[k].value)
  }

  function Outcomes(sorted: seq<(nat, Outcome)>): seq<Outcome> {
    seq(|sorted|, k requires 0 <= k < |sorted| => sorted[k].1)
  }

  /** The outcomes by ascending job index. */
  function Collected(s: Pool): seq<Outcome>
    requires Filled(s)
  {
    Outcomes(SortBy(Entries(s), ByIndex))
  }

  /** The tail of `run_pool`: drain the slots, sort by job index. */
  method CollectByIndex(s: Pool) returns (outcomes: seq<Outcome>)
    requires Filled(s)
    ensures outcomes == Collected(s)
  {
    var byIdx: seq<(nat, Outcome)> := [];
    for k := 0 to |s.results|
      invariant byIdx == Entries(s)[..k]
    {
      byIdx := byIdx + [s.results[k].value];
    }
    assert byIdx == Entries(s);
    outcomes := Outcomes(SortBy(byIdx, ByIndex));
  }

  /** After the joins the returned list is, job by job, an outcome of that job. */
  lemma CollectedInOrder(c: Corpus, jobs: seq<nat>, workers: nat, moves: seq<Move>)
    requires Ascending(jobs) && workers >= 1 && Joined(Run(c, jobs, workers, moves))
    ensures Filled(Run(c, jobs, workers, moves))
    ensures var outcomes := Collected(Run(c, jobs, workers, moves));
      |outcomes| == |jobs| && forall k | 0 <= k < |jobs| :: Genuine(c, jobs[k], outcomes[k])
  {
    JoinedIsComplete(c, jobs, workers, moves);
    var s := Run(c, jobs, workers, moves);
    SortBySorted(Entries(s), ByIndex);
    SortedJobs(c, jobs, s, Entries(s), SortBy(Entries(s), ByIndex));
  }

  /** Two ascending lists of the same numbers are the same list. */
  lemma {:induction false} AscendingUnique(a: seq<nat>, b: seq<nat>)
    requires Ascending(a) && Ascending(b) && forall x: nat :: x in a <==> x in b
    ensures a == b
    decreases |a|
  {
    var first := if b != [] then b[0] else 0;
    assert b != [] ==> first in b;
    if a != [] {
      assert a[0] in b && (b != [] ==> b[0] in a);
      assert a[0] == b[0];
      forall x: nat ensures x in a[1..] <==> x in b[1..] {
        if x in a[1..] { assert x in a && x != a[0]; assert x in b; }
        if x in b[1..] { assert x in b && x != b[0]; assert x in a; }
      }
      AscendingUnique(a[1..], b[1..]);
      assert a == [a[0]] + a[1..] && b == [b[0]] + b[1..];
    }
  }

  lemma SortedJobs(c: Corpus, jobs: seq<nat>, s: Pool, byIdx: seq<(nat, Outcome)>, sorted: seq<(nat, Outcome)>)
    requires Ascending(jobs) && StoredJobs(jobs, s) && AllGenuine(c, s)
    requires |byIdx| == |s.results| && forall i | 0 <= i < |byIdx| :: Some(byIdx[i]) == s.results[i]
    requires forall j | j in jobs :: JobStored(s, j)
    requires SortedBy(sorted, ByIndex) && multiset(sorted) == multiset(byIdx)
    ensures |sorted| == |jobs| && forall k | 0 <= k < |jobs| :: sorted[k].0 == jobs[k] && Genuine(c, jobs[k], sorted[k].1)
  {
    SortedDistinct(s, byIdx, sorted);
    forall k | 0 <= k < |sorted| ensures sorted[k].0 in jobs && Genuine(c, sorted[k].0, sorted[k].1) {
      assert sorted[k] in multiset(sorted);
      var i :| 0 <= i < |byIdx| && byIdx[i] == sorted[k];
      assert s.results[i].Some?;
    }
    forall x | x in jobs ensures exists k :: 0 <= k < |sorted| && sorted[k].0 == x {
      var i :| 0 <= i < |s.results| && s.results[i].Some? && s.results[i].value.0 == x;
      assert byIdx[i] in multiset(byIdx) && byIdx[i] in multiset(sorted);
      var k :| 0 <= k < |sorted| && sorted[k] == byIdx[i];
    }
    SameOrder(jobs, sorted);
  }

  lemma SameOrder(jobs: seq<nat>, sorted: seq<(nat, Outcome)>)
    requires Ascending(jobs) && forall i, j | 0 <= i < j < |sorted| :: sorted[i].0 < sorted[j].0
    requires forall k | 0 <= k < |sorted| :: sorted[k].0 in jobs
    requires forall x | x in jobs :: exists k :: 0 <= k < |sorted| && sorted[k].0 == x
    ensures |sorted| == |jobs| && forall k | 0 <= k < |jobs| :: sorted[k].0 == jobs[k]
  {
    var firsts := seq(|sorted|, k requires 0 <= k < |sorted| => sorted[k].0);
    forall x: nat ensures x in firsts <==> x in jobs {
      if x in jobs {
        var k :| 0 <= k < |sorted| && sorted[k].0 == x;
        assert firsts[k] == x;
      }
    }
    AscendingUnique(firsts, jobs);
    assert forall k | 0 <= k < |jobs| :: firsts[k] == jobs[k];
  }

  /** Entries with distinct jobs sort into strictly ascending order. */
  lemma SortedDistinct(s: Pool, byIdx: seq<(nat, Outcome)>, sorted: seq<(nat, Outcome)>)
    requires SortedBy(sorted, ByIndex) && multiset(sorted) == multiset(byIdx)
    requires |byIdx| == |s.results| && forall i | 0 <= i < |byIdx| :: Some(byIdx[i]) == s.results[i]
    requires forall i, k | 0 <= i < |s.results| && 0 <= k < |s.results| && i != k && s.results[i].Some? && s.results[k].Some? ::
               s.results[i].value.0 != s.results[k].value.0
    ensures forall i, j | 0 <= i < j < |sorted| :: sorted[i].0 < sorted[j].0
  {
    forall i, j | 0 <= i < j < |sorted| ensures sorted[i].0 < sorted[j].0 {
      assert ByIndex(sorted[i], sorted[j]);
      if sorted[i].0 == sorted[j].0 {
        assert sorted[i] in multiset(sorted) && sorted[j] in multiset(sorted);
        var a :| 0 <= a < |byIdx| && byIdx[a] == sorted[i];
        var b :| 0 <= b < |byIdx| && byIdx[b] == sorted[j];
        assert a == b;
        TwiceInMultiset(sorted, i, j);
        OnceInMultiset(byIdx, a);
      }
    }
  }

  lemma TwiceInMultiset<T>(s: seq<T>, i: nat, j: nat)
    requires i < j < |s| && s[i] == s[j]
    ensures multiset(s)[s[i]] >= 2
  {
    assert s == s[..i] + [s[i]] + s[i + 1..j] + [s[j]] + s[j + 1..];
  }

  lemma {:induction false} OnceInMultiset<T>(s: seq<T>, i: nat)
    requires i < |s| && forall k | 0 <= k < |s| && k != i :: s[k] != s[i]
    ensures multiset(s)[s[i]] == 1
  {
    assert s == s[..i] + [s[i]] + s[i + 1..];
  }

  lemma CleanText(c: Corpus, job: nat, o: Outcome)
    requires Clean(c.verdict(job)) && Genuine(c, job, o)
    ensures o.Done? <==> c.verdict(job).Prints?
    ensures PureText(o) == if c.verdict(job).Prints? then TrimEnd(c.verdict(job).body) else ""
  {
    PureTextIndependent(c.verdict(job), true);
    var v := c.verdict(job);
    if v.Prints? {
      assert "" + v.body == v.body;
      BareStrip(v.body);
    }
  }

  /** `strip_typedef_preamble` makes the written documents a function of the corpus alone:
      two pools over the same jobs, with any worker counts, interleavings and carriers of the
      typedef block, write the same text for every clean job, namely its own trimmed body. */
  lemma DocumentsIndependent(c: Corpus, jobs: seq<nat>, workers: nat, workers': nat, moves: seq<Move>, moves': seq<Move>)
    requires Ascending(jobs) && workers >= 1 && workers' >= 1
    requires Joined(Run(c, jobs, workers, moves)) && Joined(Run(c, jobs, workers', moves'))
    ensures Filled(Run(c, jobs, workers, moves)) && Filled(Run(c, jobs, workers', moves'))
    ensures var a, b := Collected(Run(c, jobs, workers, moves)), Collected(Run(c, jobs, workers', moves'));
      && |a| == |b| == |jobs|
      && forall k | 0 <= k < |jobs| && Clean(c.verdict(jobs[k])) ::
           && PureText(a[k]) == PureText(b[k]) && (a[k].Done? <==> b[k].Done?)
           && (c.verdict(jobs[k]).Prints? ==> PureText(a[k]) == TrimEnd(c.verdict(jobs[k]).body))
  {
    CollectedInOrder(c, jobs, workers, moves);
    CollectedInOrder(c, jobs, workers', moves');
    var a, b := Collected(Run(c, jobs, workers, moves)), Collected(Run(c, jobs, workers', moves'));
    forall k | 0 <= k < |jobs| && Clean(c.verdict(jobs[k]))
      ensures PureText(a[k]) == PureText(b[k]) && (a[k].Done? <==> b[k].Done?)
      ensures c.verdict(jobs[k]).Prints? ==> PureText(a[k]) == TrimEnd(c.verdict(jobs[k]).body)
    {
      CleanText(c, jobs[k], a[k]);
      CleanText(c, jobs[k], b[k]);
    }
  }
}
