/** The child supervisor (examples/gen_decompile.rs:1409-1552) as a timed machine. */
module Supervisor {
  import opened Common
  import opened LittleEndian

  // Two reader threads, a completion channel, the child, a clock, and the supervising thread
  // with its escalation phases.  Moves interleave freely.  The clock counts milliseconds since
  // `started` and advances only while the supervisor is blocked; a blocked call with a deadline
  // wakes at most `lag` after it.

  const STALL_GRACE: nat := 10_000
  const STALL_KILL_RECHECK: nat := 5_000
  const CHILD_POLL_INTERVAL: nat := 20
  const CHUNK: nat := 16384

  datatype Pipe = Stdout | Stderr

  /** What the run is about: all bytes ever written to each pipe, the cap, the wake-up lag. */
  datatype Job = Job(stdout: Bytes, stderr: Bytes, cap: Option<nat>, lag: nat)

  // ---------- Reader threads ----------

  datatype Fate = Reading | AtEof | ReadFailed | Panicked

  /** A reader thread: bytes read so far, the shared buffer, and whether it reported. */
  datatype Reader = Reader(fate: Fate, read: nat, buffer: Bytes, sent: bool)

  datatype ReaderMove = Read(n: nat) | Eof | ReadError | Panic | Send

  predicate ReaderCan(stream: Bytes, r: Reader, a: ReaderMove) {
    match a
    case Read(n) => r.fate.Reading? && 1 <= n <= CHUNK && r.read + n <= |stream|
    case Eof => r.fate.Reading? && r.read == |stream|
    case ReadError => r.fate.Reading?
    case Panic => r.fate.Reading?
    case Send => (r.fate.AtEof? || r.fate.ReadFailed?) && !r.sent
  }

  function ReaderStep(stream: Bytes, r: Reader, a: ReaderMove): Reader
    requires ReaderCan(stream, r, a)
  {
    match a
    case Read(n) => r.(read := r.read + n, buffer := r.buffer + stream[r.read..r.read + n])
    case Eof => r.(fate := AtEof)
    case ReadError => r.(fate := ReadFailed)
    case Panic => r.(fate := Panicked)
    case Send => r.(sent := true)
  }

  /** The thread has ended and its sender is dropped. */
  predicate Gone(r: Reader) { r.sent || r.fate.Panicked? }

  // ---------- The supervising thread ----------

  datatype Outcome = Captured | SurvivedKill | WaitFailed

  datatype Phase =
    | Polling(wake: nat) | Reaping | CapCheck
    | Draining(deadline: nat) | KillingHolders | Rechecking(deadline: nat)
    | Taking(pipe: Pipe) | Returned(outcome: Outcome)

  /** `treeKills` and `holderKills` record when each escalation fired, `reaped` the reap. */
  datatype Main = Main(
    phase: Phase, received: nat, treeKilled: bool, treeKills: seq<nat>, holderKills: seq<nat>,
    reaped: Option<nat>, stdout: Option<Bytes>, stderr: Option<Bytes>)

  datatype MainMove = Receive | TimeOut | Disconnect | Go | WaitError

  /** What the supervisor sees of the rest of the machine when it moves. */
  datatype View = View(now: nat, queue: nat, allGone: bool, childAlive: bool, stdout: Bytes, stderr: Bytes)

  /** The point up to which the supervisor may stay blocked. */
  function Deadline(s: Main): Option<nat> {
    match s.phase
    case Polling(wake) => Some(wake)
    case Draining(deadline) => Some(deadline)
    case Rechecking(deadline) => Some(deadline)
    case _ => None
  }

  /** Blocked on the channel rather than in a plain sleep. */
  predicate Listening(s: Main) {
    s.received < 2 && Deadline(s).Some?
  }

  predicate MainCan(v: View, s: Main, a: MainMove) {
    match a
    case Receive => Listening(s) && v.queue > 0
    case TimeOut => Deadline(s).Some? && v.now >= Deadline(s).value
    case Disconnect => Listening(s) && v.queue == 0 && v.allGone
    case WaitError => s.phase.Reaping?
    case Go => s.phase.Reaping? || s.phase.CapCheck? || s.phase.KillingHolders? || s.phase.Taking?
  }

  /** One more completion arrived. */
  function OnReceive(s: Main): Main {
    s.(received := s.received + 1,
       phase := if s.phase.Polling? then Reaping else if s.received + 1 < 2 then s.phase else Taking(Stdout))
  }

  /** A wait ended without one. */
  function OnWaitOver(s: Main): Main {
    s.(phase := if s.phase.Polling? then Reaping else if s.phase.Draining? then KillingHolders else Taking(Stdout))
  }

  function OnTryWait(v: View, s: Main): Main {
    if v.childAlive then s.(phase := CapCheck)
    else s.(reaped := Some(v.now), phase := if s.received < 2 then Draining(v.now + STALL_GRACE) else Taking(Stdout))
  }

  function OnCapCheck(cap: Option<nat>, v: View, s: Main): Main {
    var again := s.(phase := Polling(v.now + CHILD_POLL_INTERVAL));
    if cap.None? then again
    else if !s.treeKilled && v.now > cap.value then again.(treeKilled := true, treeKills := s.treeKills + [v.now])
    else if s.treeKilled && v.now > cap.value + STALL_KILL_RECHECK then s.(phase := Returned(SurvivedKill))
    else again
  }

  function MainStep(cap: Option<nat>, v: View, s: Main, a: MainMove): Main
    requires MainCan(v, s, a)
  {
    match a
    case Receive => OnReceive(s)
    case TimeOut => OnWaitOver(s)
    case Disconnect => OnWaitOver(if s.phase.Polling? then s.(received := 2) else s)
    case WaitError => s.(phase := Returned(WaitFailed))
    case Go =>
      if s.phase.Reaping? then OnTryWait(v, s)
      else if s.phase.CapCheck? then OnCapCheck(cap, v, s)
      else if s.phase.KillingHolders? then
        s.(holderKills := s.holderKills + [v.now], phase := Rechecking(v.now + STALL_KILL_RECHECK))
      else if s.phase.pipe.Stdout? then s.(stdout := Some(v.stdout), phase := Taking(Stderr))
      else s.(stderr := Some(v.stderr), phase := Returned(Captured))
  }

  // ---------- The machine ----------

  datatype Machine = Machine(now: nat, main: Main, stdout: Reader, stderr: Reader, queue: nat, childAlive: bool)

  datatype Move = Tick(d: nat) | ChildExits | ReaderActs(p: Pipe, r: ReaderMove) | MainActs(a: MainMove)

  function Start(): Machine {
    var r := Reader(Reading, 0, [], false);
    Machine(0, Main(Polling(CHILD_POLL_INTERVAL), 0, false, [], [], None, None, None), r, r, 0, true)
  }

  function Stream(j: Job, p: Pipe): Bytes { if p.Stdout? then j.stdout else j.stderr }

  function Get(m: Machine, p: Pipe): Reader { if p.Stdout? then m.stdout else m.stderr }

  function Taken(m: Machine, p: Pipe): Option<Bytes> { if p.Stdout? then m.main.stdout else m.main.stderr }

  function ViewOf(m: Machine): View {
    View(m.now, m.queue, Gone(m.stdout) && Gone(m.stderr), m.childAlive, m.stdout.buffer, m.stderr.buffer)
  }

  predicate Enabled(j: Job, m: Machine, mv: Move) {
    && !m.main.phase.Returned?
    && match mv
       case Tick(d) => d > 0 && Deadline(m.main).Some? && m.now + d <= Deadline(m.main).value + j.lag
       case ChildExits => m.childAlive
       case ReaderActs(p, r) => ReaderCan(Stream(j, p), Get(m, p), r)
       case MainActs(a) => MainCan(ViewOf(m), m.main, a)
  }

  /** Taking a buffer leaves an empty one behind. */
  function Emptied(r: Reader, s: Main, p: Pipe, a: MainMove): Reader {
    if a.Go? && s.phase == Taking(p) then r.(buffer := []) else r
  }

  function Act(j: Job, m: Machine, mv: Move): Machine
    requires Enabled(j, m, mv)
  {
    match mv
    case Tick(d) => m.(now := m.now + d)
    case ChildExits => m.(childAlive := false)
    case ReaderActs(p, r) =>
      var stepped := ReaderStep(Stream(j, p), Get(m, p), r);
      (if p.Stdout? then m.(stdout := stepped) else m.(stderr := stepped))
        .(queue := if r.Send? then m.queue + 1 else m.queue)
    case MainActs(a) =>
      Machine(m.now, MainStep(j.cap, ViewOf(m), m.main, a),
              Emptied(m.stdout, m.main, Stdout, a), Emptied(m.stderr, m.main, Stderr, a),
              if a.Receive? then m.queue - 1 else m.queue, m.childAlive)
  }

  // ---------- Runs ----------

  function Last(moves: seq<Move>): Move
    requires moves != []
  {
    moves[|moves| - 1]
  }

  ghost predicate Step(j: Job, m: Machine, mv: Move, m': Machine) {
    Enabled(j, m, mv) && m' == Act(j, m, mv)
  }

  ghost predicate Run(j: Job, m: Machine, moves: seq<Move>)
    decreases |moves|
  {
    if moves == [] then m == Start()
    else exists before :: Run(j, before, moves[..|moves| - 1]) && Step(j, before, Last(moves), m)
  }

  ghost predicate Reachable(j: Job, m: Machine) {
    exists moves :: Run(j, m, moves)
  }

  // ---------- Completions are counted once ----------

  predicate Honest(r: Reader) { r.sent ==> r.fate.AtEof? || r.fate.ReadFailed? }

  function Reports(m: Machine): nat {
    (if m.stdout.sent then 1 else 0) + (if m.stderr.sent then 1 else 0)
  }

  /** Every message is counted once; a disconnect is only seen with both readers gone. */
  ghost predicate Counting(m: Machine) {
    && Honest(m.stdout) && Honest(m.stderr)
    && m.main.received <= 2
    && (m.main.received + m.queue == Reports(m)
        || (m.main.received == 2 && m.queue == 0 && Gone(m.stdout) && Gone(m.stderr)))
  }

  lemma ActCounting(j: Job, m: Machine, mv: Move)
    requires Counting(m) && Enabled(j, m, mv)
    ensures Counting(Act(j, m, mv))
  {
    match mv
    case Tick(_) => case ChildExits =>
    case ReaderActs(p, _) =>
    case MainActs(a) =>
      var s := MainStep(j.cap, ViewOf(m), m.main, a);
      assert a.Receive? ==> s.received == m.main.received + 1;
  }

  // ---------- The captured bytes ----------

  /** A buffer holds what was read, in stream order, until the supervisor takes it. */
  ghost predicate PipeBytes(stream: Bytes, r: Reader, taken: Option<Bytes>) {
    && r.read <= |stream|
    && (r.fate.AtEof? ==> r.read == |stream|)
    && (taken.None? ==> r.buffer == stream[..r.read])
    && (taken.Some? ==> taken.value <= stream && |taken.value| <= r.read)
  }

  /** What was taken is all that was ever read. */
  predicate NothingLeft(r: Reader, taken: Option<Bytes>) { taken.Some? ==> |taken.value| == r.read }

  ghost predicate Bytewise(j: Job, m: Machine, p: Pipe) {
    && PipeBytes(Stream(j, p), Get(m, p), Taken(m, p))
    && (m.main.received == 2 ==> NothingLeft(Get(m, p), Taken(m, p)))
  }

  lemma ReadKeeps(stream: Bytes, r: Reader, taken: Option<Bytes>, a: ReaderMove)
    requires PipeBytes(stream, r, taken) && ReaderCan(stream, r, a)
    ensures PipeBytes(stream, ReaderStep(stream, r, a), taken)
  {
    if a.Read? {
      assert stream[..r.read] + stream[r.read..r.read + a.n] == stream[..r.read + a.n];
    }
  }

  /** With both completions counted neither reader reads again. */
  lemma BothEnded(m: Machine)
    requires Counting(m) && m.main.received == 2
    ensures !m.stdout.fate.Reading? && !m.stderr.fate.Reading?
  {
  }

  /** Which buffer a move of the supervisor takes, if any. */
  lemma MainTakes(cap: Option<nat>, v: View, s: Main, a: MainMove)
    requires MainCan(v, s, a)
    ensures var s' := MainStep(cap, v, s, a);
      && s'.stdout == (if a.Go? && s.phase == Taking(Stdout) then Some(v.stdout) else s.stdout)
      && s'.stderr == (if a.Go? && s.phase == Taking(Stderr) then Some(v.stderr) else s.stderr)
      && (s'.received == s.received || (Listening(s) && s'.received > s.received))
  {
  }

  // ---------- Escalation ----------

  predicate AfterReap(p: Phase) {
    p.Draining? || p.KillingHolders? || p.Rechecking? || p.Taking? || p == Returned(Captured)
  }

  /** Which escalations, reaps and captures go with which phase. */
  ghost predicate Escalation(cap: Option<nat>, now: nat, s: Main) {
    && (AfterReap(s.phase) <==> s.reaped.Some?)
    && Kills(cap, now, s)
    && (s.phase.Draining? || s.phase.KillingHolders? || s.phase.Rechecking? ==> s.received < 2)
    && (s.phase.Taking? || s.phase == Returned(Captured) ==> s.received == 2 || s.holderKills != [])
    && (s.stdout.Some? <==> s.phase == Returned(Captured) || s.phase == Taking(Stderr))
    && (s.stderr.Some? <==> s.phase == Returned(Captured))
  }

  ghost predicate Kills(cap: Option<nat>, now: nat, s: Main) {
    && |s.treeKills| == (if s.treeKilled then 1 else 0)
    && (s.treeKilled ==> cap.Some? && cap.value < s.treeKills[0] <= now)
    && |s.holderKills| <= 1
    && (s.phase.Rechecking? ==> |s.holderKills| == 1)
    && (s.holderKills != [] ==> s.phase.Rechecking? || s.phase.Taking? || s.phase == Returned(Captured))
    && (s.phase == Returned(SurvivedKill) ==> s.treeKilled && now > cap.value + STALL_KILL_RECHECK)
  }

  lemma MainEscalation(cap: Option<nat>, v: View, s: Main, a: MainMove)
    requires Escalation(cap, v.now, s) && s.received <= 2 && !s.phase.Returned? && MainCan(v, s, a)
    ensures Escalation(cap, v.now, MainStep(cap, v, s, a))
  {
    match a
    case Receive => case TimeOut => case Disconnect => case WaitError =>
    case Go => MainKills(cap, v, s);
  }

  lemma MainKills(cap: Option<nat>, v: View, s: Main)
    requires Escalation(cap, v.now, s) && !s.phase.Returned? && MainCan(v, s, Go)
    ensures Kills(cap, v.now, MainStep(cap, v, s, Go))
  {
  }

  // ---------- Timing ----------

  /** `died`: a reader died without reporting, so its sender may be gone before the grace. */
  ghost predicate Timely(lag: nat, now: nat, died: bool, s: Main) {
    s.reaped.Some? ==>
      && var r := s.reaped.value;
      && r <= now <= r + STALL_GRACE + STALL_KILL_RECHECK + 2 * lag
      && (s.phase.Draining? ==> s.phase.deadline == r + STALL_GRACE)
      && (s.phase.KillingHolders? ==> now >= r + STALL_GRACE || died)
      && (s.phase.Rechecking? ==> s.phase.deadline <= r + STALL_GRACE + lag + STALL_KILL_RECHECK)
      && (s.phase.Rechecking? ==> s.holderKills != [] && s.phase.deadline == s.holderKills[0] + STALL_KILL_RECHECK)
      && ((s.phase.Taking? || s.phase == Returned(Captured)) && s.received < 2 && s.holderKills != [] ==>
            now >= s.holderKills[0] + STALL_KILL_RECHECK || died)
      && (s.holderKills == [] ==> now <= r + STALL_GRACE + lag)
      && (s.holderKills != [] ==> r <= s.holderKills[0] <= now)
      && (s.holderKills != [] ==> s.holderKills[0] >= r + STALL_GRACE || died)
  }

  ghost predicate Died(m: Machine) { m.stdout.fate.Panicked? || m.stderr.fate.Panicked? }

  lemma MainTimely(cap: Option<nat>, lag: nat, v: View, died: bool, s: Main, a: MainMove)
    requires Escalation(cap, v.now, s) && Timely(lag, v.now, died, s) && !s.phase.Returned? && MainCan(v, s, a)
    requires a.Disconnect? ==> died
    ensures Timely(lag, v.now, died, MainStep(cap, v, s, a))
  {
    match a
    case Receive => case TimeOut => case Disconnect => case WaitError => case Go =>
  }

  /** A channel that disconnects while completions are missing has lost a reader. */
  lemma DisconnectMeansDeath(m: Machine)
    requires Counting(m) && m.queue == 0 && m.main.received < 2 && Gone(m.stdout) && Gone(m.stderr)
    ensures Died(m)
  {
  }

  // ---------- The wall clock under a cap ----------

  function Max(a: nat, b: nat): nat { if a < b then b else a }

  /** The latest a poll can begin. */
  function PollBy(lag: nat, cap: nat, killed: bool): nat {
    if killed then cap + Max(CHILD_POLL_INTERVAL + lag, STALL_KILL_RECHECK) else cap
  }

  /** The latest the supervisor can return under a cap. */
  function ReturnBy(lag: nat, cap: nat): nat {
    PollBy(lag, cap, true) + CHILD_POLL_INTERVAL + lag + STALL_GRACE + STALL_KILL_RECHECK + 2 * lag
  }

  ghost predicate Capped(cap: Option<nat>, lag: nat, now: nat, s: Main) {
    && (s.phase.Polling? ==> s.phase.wake <= now + CHILD_POLL_INTERVAL && now <= s.phase.wake + lag)
    && (cap.Some? && s.phase.Polling? ==> s.phase.wake <= PollBy(lag, cap.value, s.treeKilled) + CHILD_POLL_INTERVAL)
    && (cap.Some? && s.reaped.None? ==> now <= PollBy(lag, cap.value, s.treeKilled) + CHILD_POLL_INTERVAL + lag)
    && (cap.Some? && s.reaped.Some? ==> s.reaped.value <= PollBy(lag, cap.value, true) + CHILD_POLL_INTERVAL + lag)
  }

  lemma MainCapped(cap: Option<nat>, lag: nat, v: View, s: Main, a: MainMove)
    requires Escalation(cap, v.now, s) && Capped(cap, lag, v.now, s) && !s.phase.Returned? && MainCan(v, s, a)
    ensures Capped(cap, lag, v.now, MainStep(cap, v, s, a))
  {
    match a
    case Receive => case TimeOut => case Disconnect => case WaitError => case Go =>
  }

  // ---------- The invariant of all runs ----------

  /** The supervisor reaps, and kills holders, only once the child has exited. */
  ghost predicate Awaited(m: Machine) {
    m.main.reaped.Some? ==> !m.childAlive
  }

  ghost predicate Inv(j: Job, m: Machine) {
    && Counting(m) && Awaited(m)
    && Bytewise(j, m, Stdout) && Bytewise(j, m, Stderr)
    && Escalation(j.cap, m.now, m.main)
    && Timely(j.lag, m.now, Died(m), m.main)
    && Capped(j.cap, j.lag, m.now, m.main)
  }

  lemma StartInv(j: Job)
    ensures Inv(j, Start())
  {
  }

  lemma ActBytewise(j: Job, m: Machine, mv: Move, p: Pipe)
    requires Counting(m) && Bytewise(j, m, p) && Enabled(j, m, mv)
    requires Taken(m, p).Some? ==> m.main.phase != Taking(p) && !Listening(m.main)
    ensures Bytewise(j, Act(j, m, mv), p)
  {
    if m.main.received == 2 { BothEnded(m); }
    match mv
    case Tick(_) => case ChildExits =>
    case ReaderActs(q, r) =>
      if p == q { ReadKeeps(Stream(j, p), Get(m, p), Taken(m, p), r); }
    case MainActs(a) =>
      MainTakes(j.cap, ViewOf(m), m.main, a);
  }

  lemma ActMain(j: Job, m: Machine, a: MainMove)
    requires Inv(j, m) && Enabled(j, m, MainActs(a))
    ensures var m' := Act(j, m, MainActs(a));
      && Escalation(j.cap, m'.now, m'.main) && Timely(j.lag, m'.now, Died(m'), m'.main)
      && Capped(j.cap, j.lag, m'.now, m'.main)
  {
    if a.Disconnect? { DisconnectMeansDeath(m); }
    MainEscalation(j.cap, ViewOf(m), m.main, a);
    MainTimely(j.cap, j.lag, ViewOf(m), Died(m), m.main, a);
    MainCapped(j.cap, j.lag, ViewOf(m), m.main, a);
  }

  /** Time passing keeps the timing as long as the deadline of the wait is respected. */
  lemma TickKeeps(j: Job, died: bool, now: nat, d: nat, s: Main)
    requires Escalation(j.cap, now, s) && Timely(j.lag, now, died, s) && Capped(j.cap, j.lag, now, s)
    requires Deadline(s).Some? && now + d <= Deadline(s).value + j.lag
    ensures Escalation(j.cap, now + d, s) && Timely(j.lag, now + d, died, s) && Capped(j.cap, j.lag, now + d, s)
  {
  }

  /** Readers and the child leave the supervisor's own state alone. */
  lemma ActTiming(j: Job, m: Machine, mv: Move)
    requires Inv(j, m) && Enabled(j, m, mv)
    ensures var m' := Act(j, m, mv);
      && Escalation(j.cap, m'.now, m'.main) && Timely(j.lag, m'.now, Died(m'), m'.main)
      && Capped(j.cap, j.lag, m'.now, m'.main)
  {
    var m' := Act(j, m, mv);
    match mv
    case Tick(d) => TickKeeps(j, Died(m), m.now, d, m.main);
    case ChildExits => assert m'.main == m.main && Died(m') == Died(m);
    case ReaderActs(_, _) => assert m'.main == m.main && m'.now == m.now && (Died(m) ==> Died(m'));
    case MainActs(a) => ActMain(j, m, a);
  }

  lemma Untaken(j: Job, m: Machine)
    requires Escalation(j.cap, m.now, m.main)
    ensures forall p: Pipe :: Taken(m, p).Some? ==> m.main.phase != Taking(p) && !Listening(m.main)
  {
  }

  lemma ActInv(j: Job, m: Machine, mv: Move)
    requires Inv(j, m) && Enabled(j, m, mv)
    ensures Inv(j, Act(j, m, mv))
  {
    ActCounting(j, m, mv);
    Untaken(j, m);
    ActBytewise(j, m, mv, Stdout);
    ActBytewise(j, m, mv, Stderr);
    ActTiming(j, m, mv);
  }

  lemma {:induction false} RunInv(j: Job, m: Machine, moves: seq<Move>)
    requires Run(j, m, moves)
    ensures Inv(j, m)
    decreases |moves|
  {
    if moves == [] {
      StartInv(j);
    } else {
      var before :| Run(j, before, moves[..|moves| - 1]) && Step(j, before, Last(moves), m);
      RunInv(j, before, moves[..|moves| - 1]);
      ActInv(j, before, Last(moves));
    }
  }

  lemma ReachableInv(j: Job, m: Machine)
    requires Reachable(j, m)
    ensures Inv(j, m)
  {
    var moves :| Run(j, m, moves);
    RunInv(j, m, moves);
  }

  // ---------- What every run keeps ----------

  /** The tree is killed at most once and only past the cap; pipe holders at most once, only
      after the reap, and only after the grace unless a reader died; at most two completions
      are ever counted. */
  lemma EscalatesOnce(j: Job, m: Machine)
    requires Reachable(j, m)
    ensures |m.main.treeKills| <= 1
    ensures m.main.treeKills != [] ==> j.cap.Some? && m.main.treeKills[0] > j.cap.value
    ensures |m.main.holderKills| <= 1
    ensures m.main.holderKills != [] ==> m.main.reaped.Some? && m.main.holderKills[0] >= m.main.reaped.value
    ensures m.main.holderKills != [] && m.main.holderKills[0] < m.main.reaped.value + 10_000 ==> Died(m)
    ensures m.main.received <= 2
    ensures m.main.reaped.Some? ==> !m.childAlive
  {
    ReachableInv(j, m);
  }

  /** After the reap the supervisor returns within the grace and the re-check window (plus two
      wake-up lags), and within the grace alone when no holder had to be killed. */
  lemma ReturnsInTime(j: Job, m: Machine)
    requires Reachable(j, m) && m.main.reaped.Some?
    ensures m.now - m.main.reaped.value <= 15_000 + 2 * j.lag
    ensures m.main.holderKills == [] ==> m.now - m.main.reaped.value <= 10_000 + j.lag
  {
    ReachableInv(j, m);
  }

  /** Nothing is reaped in a run in which the child has not exited. */
  lemma {:induction false} ReapedHasExited(j: Job, m: Machine, moves: seq<Move>)
    requires Run(j, m, moves)
    ensures !m.childAlive || m.main.reaped.Some? ==> ChildExits in moves
    decreases |moves|
  {
    if moves != [] {
      var before :| Run(j, before, moves[..|moves| - 1]) && Step(j, before, Last(moves), m);
      ReapedHasExited(j, before, moves[..|moves| - 1]);
    }
    RunInv(j, m, moves);
  }

  /** What was taken is a prefix, and all of the stream when nothing was left unread. */
  lemma TakenBytes(stream: Bytes, r: Reader, taken: Option<Bytes>)
    requires PipeBytes(stream, r, taken) && taken.Some?
    ensures taken.value <= stream
    ensures r.fate.AtEof? && NothingLeft(r, taken) ==> taken == Some(stream)
  {
    if |taken.value| == |stream| { assert taken.value == stream; }
  }

  /** What the caller gets: always prefixes of the streams; the whole stream of every reader
      that ended at EOF when both readers reported; otherwise holders were killed first. */
  lemma CaptureIsFaithful(j: Job, m: Machine, p: Pipe)
    requires Reachable(j, m) && m.main.phase == Returned(Captured)
    ensures Taken(m, p).Some? && Taken(m, p).value <= Stream(j, p)
    ensures m.main.received == 2 && Get(m, p).fate.AtEof? ==> Taken(m, p) == Some(Stream(j, p))
    ensures m.main.received < 2 ==> m.main.holderKills != [] && (m.now >= m.main.holderKills[0] + 5_000 || Died(m))
    ensures !m.childAlive
  {
    ReachableInv(j, m);
    TakenBytes(Stream(j, p), Get(m, p), Taken(m, p));
  }

  /** The timeout error means the tree was killed and, counted from the cap, the re-check window
      passed without a reap. */
  lemma ErrorMeansUnkillable(j: Job, m: Machine)
    requires Reachable(j, m) && m.main.phase == Returned(SurvivedKill)
    ensures m.main.treeKilled && j.cap.Some? && m.now > j.cap.value + 5_000 && m.main.reaped.None?
  {
    ReachableInv(j, m);
  }

  // ---------- Progress ----------

  /** The supervisor looks at the child at least every 20 ms and a lag: it never waits longer for
      a completion before the reap. */
  lemma PollsOften(j: Job, m: Machine)
    requires Reachable(j, m) && m.main.phase.Polling?
    ensures m.main.phase.wake <= m.now + 20
  {
    ReachableInv(j, m);
  }

  /** A reader thread can move until it is gone, and then no more. */
  lemma ReaderMovesUntilGone(stream: Bytes, r: Reader)
    requires Honest(r) && r.read <= |stream| && (r.fate.AtEof? ==> r.read == |stream|)
    ensures Gone(r) <==> forall a :: !ReaderCan(stream, r, a)
  {
    if r.fate.Reading? { assert ReaderCan(stream, r, Panic); } else if !Gone(r) { assert ReaderCan(stream, r, Send); }
  }

  /** The supervisor is never stuck: until it returns, it can move or time can pass. */
  lemma NeverStuck(j: Job, m: Machine)
    requires Reachable(j, m) && !m.main.phase.Returned?
    ensures Enabled(j, m, MainActs(Go)) || Enabled(j, m, MainActs(TimeOut)) || Enabled(j, m, Tick(1))
  {
    ReachableInv(j, m);
  }

  function PhaseRank(p: Phase): nat {
    match p
    case Polling(_) => 0 case Reaping => 8 case CapCheck => 7
    case Draining(_) => 6 case KillingHolders => 5 case Rechecking(_) => 4
    case Taking(p) => if p.Stdout? then 3 else 2
    case Returned(_) => 0
  }

  function MainRank(now: nat, s: Main): int {
    PhaseRank(s.phase) + 10 * (2 - s.received) - 10 * (if s.phase.Polling? then s.phase.wake else now + CHILD_POLL_INTERVAL)
  }

  function ReaderRank(stream: Bytes, r: Reader): int {
    |stream| - r.read + (if r.fate.Reading? then 2 else if r.sent then 0 else 1)
  }

  function Fuel(j: Job, cap: nat, m: Machine): int {
    11 * ReturnBy(j.lag, cap) + 10 * CHILD_POLL_INTERVAL - m.now + MainRank(m.now, m.main)
    + (if m.childAlive then 1 else 0) + ReaderRank(j.stdout, m.stdout) + ReaderRank(j.stderr, m.stderr)
  }

  lemma InTime(j: Job, cap: nat, m: Machine)
    requires Inv(j, m) && j.cap == Some(cap)
    ensures m.now <= ReturnBy(j.lag, cap) && Fuel(j, cap, m) >= 0
  {
    assert PipeBytes(j.stdout, m.stdout, m.main.stdout) && PipeBytes(j.stderr, m.stderr, m.main.stderr);
  }

  lemma MainDrains(cap: Option<nat>, v: View, s: Main, a: MainMove)
    requires s.received <= 2 && !s.phase.Returned? && MainCan(v, s, a)
    requires s.phase.Polling? ==> s.phase.wake <= v.now + CHILD_POLL_INTERVAL
    ensures MainRank(v.now, MainStep(cap, v, s, a)) < MainRank(v.now, s)
  {
    match a
    case Receive => case TimeOut => case Disconnect => case WaitError => case Go =>
  }

  lemma ActDrains(j: Job, cap: nat, m: Machine, mv: Move)
    requires Inv(j, m) && Enabled(j, m, mv)
    ensures Fuel(j, cap, Act(j, m, mv)) < Fuel(j, cap, m)
  {
    match mv
    case Tick(_) => case ChildExits => case ReaderActs(_, _) =>
    case MainActs(a) => MainDrains(j.cap, ViewOf(m), m.main, a);
  }

  /** Under a cap every run is over within a bound fixed by the job: no schedule of readers,
      child and supervisor goes on forever, and the wall clock stays below `ReturnBy`. */
  lemma {:induction false} RunsEnd(j: Job, cap: nat, m: Machine, moves: seq<Move>)
    requires j.cap == Some(cap) && Run(j, m, moves)
    ensures m.now <= ReturnBy(j.lag, cap)
    ensures |moves| <= Fuel(j, cap, Start()) - Fuel(j, cap, m) <= Fuel(j, cap, Start())
    decreases |moves|
  {
    RunInv(j, m, moves);
    InTime(j, cap, m);
    if moves != [] {
      var before :| Run(j, before, moves[..|moves| - 1]) && Step(j, before, Last(moves), m);
      RunsEnd(j, cap, before, moves[..|moves| - 1]);
      RunInv(j, before, moves[..|moves| - 1]);
      ActDrains(j, cap, before, Last(moves));
    }
  }
}
