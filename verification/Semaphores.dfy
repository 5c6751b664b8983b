/** Timeline semaphores shared by the threads of one device: a transition system
    with one step per critical section of coralnpu_semaphore.c.

    Every thread performs one call.  A call is broken where the source releases a
    mutex, so the scans over a semaphore list and the updates of `multi_signal`
    interleave freely with other threads.  The shared notification is an epoch:
    `post` increments it, and a waiter sleeps only on an epoch it read before its
    condition was evaluated to false. */
module Semaphores {

  /** The fields guarded by one semaphore's mutex; failure code 0 is OK. */
  datatype Sem = Sem(value: nat, failure: nat)

  /** One entry of a semaphore list. */
  datatype Point = Point(sem: nat, payload: nat)

  datatype Mode = All | Any

  datatype Timeout = Immediate | Finite | Infinite

  datatype Status = Ok | Aborted | DeadlineExceeded | OutOfRange | CommandFailed

  /** `signal` is `MultiSignal` of one entry and `wait` is `MultiWait` of one entry:
      the list functions forward to them.  `Execute` is a queue submission. */
  datatype Call =
    | Fail(sem: nat, code: nat)
    | MultiSignal(points: seq<Point>)
    | MultiWait(mode: Mode, points: seq<Point>, timeout: Timeout)
    | Execute(waits: seq<Point>, points: seq<Point>)

  datatype Pc =
    | Start
    | Prepare
    | Scan(token: nat, i: nat)
    | Asleep(token: nat, at: nat)
    | Result(i: nat, anySignaled: bool, allSignaled: bool, anyFailed: bool)
    | Apply
    | Running
    | Update(i: nat)
    | Post(status: Status)
    | Done(status: Status)

  /** What happened, in order.  `Began` and `Finished` bracket the deferred commands
      of a submission. */
  datatype Event =
    | Began(thread: nat)
    | Finished(thread: nat)
    | Signaled(thread: nat, sem: nat, value: nat)
    | Failed(thread: nat, sem: nat)

  /** `failureValue` is the sentinel that `fail` stores. */
  datatype Config = Config(failureValue: nat, initial: seq<nat>, calls: seq<Call>)

  datatype State = State(sems: seq<Sem>, epoch: nat, pcs: seq<Pc>, log: seq<Event>)

  // ----- calls -----

  function Waits(call: Call): seq<Point> {
    match call
    case MultiWait(_, points, _) => points
    case Execute(waits, _) => waits
    case _ => []
  }

  function Signals(call: Call): seq<Point> {
    match call
    case MultiSignal(points) => points
    case Execute(_, points) => points
    case _ => []
  }

  function WaitMode(call: Call): Mode {
    if call.MultiWait? then call.mode else All
  }

  function WaitTimeout(call: Call): Timeout {
    if call.MultiWait? then call.timeout else Infinite
  }

  predicate IsWait(call: Call) {
    call.MultiWait? || call.Execute?
  }

  predicate ValidPoints(points: seq<Point>, sems: nat) {
    forall k :: 0 <= k < |points| ==> points[k].sem < sems
  }

  predicate ValidCall(call: Call, sems: nat) {
    && ValidPoints(Waits(call), sems)
    && ValidPoints(Signals(call), sems)
    && (call.Fail? ==> call.sem < sems && call.code != 0)
  }

  predicate ValidConfig(c: Config) {
    forall t :: 0 <= t < |c.calls| ==> ValidCall(c.calls[t], |c.initial|)
  }

  // ----- critical sections -----

  predicate Reaches(s: Sem, payload: nat) {
    s.value >= payload || s.failure != 0
  }

  function SignalUnsafe(s: Sem, value: nat): Sem
    requires value > s.value
  {
    s.(value := value)
  }

  function Goto(s: State, t: nat, pc: Pc): State
    requires t < |s.pcs|
  {
    s.(pcs := s.pcs[t := pc])
  }

  function AfterWait(call: Call, status: Status): Pc {
    if call.Execute? && status == Ok then Apply else Done(status)
  }

  const FIRST_RESULT: Pc := Result(0, false, true, false)

  function ResultStatus(mode: Mode, pc: Pc): Status
    requires pc.Result?
  {
    if pc.anyFailed then Aborted
    else if mode == All then (if pc.allSignaled then Ok else DeadlineExceeded)
    else (if pc.anySignaled then Ok else DeadlineExceeded)
  }

  function ResultStep(pc: Pc, s: Sem, payload: nat): Pc
    requires pc.Result?
  {
    if s.failure != 0 then pc.(i := pc.i + 1, anyFailed := true)
    else if s.value < payload then pc.(i := pc.i + 1, allSignaled := false)
    else pc.(i := pc.i + 1, anySignaled := true)
  }

  // ----- steps -----

  function Init(c: Config): State {
    State(seq(|c.initial|, k requires 0 <= k < |c.initial| => Sem(c.initial[k], 0)),
          0, seq(|c.calls|, _ => Start), [])
  }

  /** Sizes agree and every program counter is inside the lists its call walks. */
  predicate PcOk(call: Call, pc: Pc, epoch: nat) {
    match pc
    case Start => true
    case Prepare => IsWait(call) && |Waits(call)| > 0
    case Scan(token, i) => IsWait(call) && 0 < |Waits(call)| && i <= |Waits(call)| && token <= epoch
    case Asleep(token, at) => IsWait(call) && at < |Waits(call)| && token <= epoch
    case Result(i, _, _, _) => IsWait(call) && i <= |Waits(call)|
    case Apply => call.Execute?
    case Running => call.Execute?
    case Update(i) => i < |Signals(call)|
    case Post(_) => !call.MultiWait?
    case Done(_) => true
  }

  predicate Shape(c: Config, s: State) {
    && ValidConfig(c)
    && |s.sems| == |c.initial|
    && |s.pcs| == |c.calls|
    && forall t :: 0 <= t < |s.pcs| ==> PcOk(c.calls[t], s.pcs[t], s.epoch)
  }

  predicate Valid(c: Config, s: State, t: nat) {
    Shape(c, s) && t < |s.pcs|
  }

  function SemAt(c: Config, s: State, t: nat, k: nat): Sem
    requires Valid(c, s, t) && k < |Waits(c.calls[t])|
  {
    s.sems[Waits(c.calls[t])[k].sem]
  }

  predicate WaitReached(c: Config, s: State, t: nat, k: nat)
    requires Valid(c, s, t) && k < |Waits(c.calls[t])|
  {
    Reaches(SemAt(c, s, t, k), Waits(c.calls[t])[k].payload)
  }

  /** `fail`: only the first failure is kept, and only that one posts. */
  predicate FailStep(c: Config, s: State, t: nat, s': State)
    requires Valid(c, s, t) && c.calls[t].Fail?
  {
    var k := c.calls[t].sem;
    if s.sems[k].failure != 0 then s' == Goto(s, t, Done(Ok))
    else s' == Goto(s, t, Post(Ok)).(sems := s.sems[k := Sem(c.failureValue, c.calls[t].code)],
                                     log := s.log + [Failed(t, k)])
  }

  /** Entry of `multi_wait`, with the single-semaphore fast path of `wait`. */
  predicate WaitStart(c: Config, s: State, t: nat, s': State)
    requires Valid(c, s, t) && IsWait(c.calls[t])
  {
    var call := c.calls[t];
    var waits := Waits(call);
    if |waits| == 0 then s' == Goto(s, t, AfterWait(call, Ok))
    else if |waits| == 1 then
      var sem := SemAt(c, s, t, 0);
      if sem.failure != 0 then s' == Goto(s, t, AfterWait(call, Aborted))
      else if sem.value >= waits[0].payload then
        // The mutex is held, so the value just read is the one that is current.
        s' == Goto(s, t, AfterWait(call, Ok))
      else if WaitTimeout(call) == Immediate then s' == Goto(s, t, AfterWait(call, DeadlineExceeded))
      else s' == Goto(s, t, Prepare)
    else if WaitTimeout(call) == Immediate then s' == Goto(s, t, FIRST_RESULT)
    else s' == Goto(s, t, Prepare)
  }

  predicate StartStep(c: Config, s: State, t: nat, s': State)
    requires Valid(c, s, t)
  {
    match c.calls[t]
    case Fail(_, _) => FailStep(c, s, t, s')
    case MultiSignal(points) => s' == Goto(s, t, if |points| == 0 then Done(Ok) else Update(0))
    case _ => WaitStart(c, s, t, s')
  }

  /** One iteration of `any_signaled` or `all_signaled`, or its return. */
  predicate ScanStep(c: Config, s: State, t: nat, s': State)
    requires Valid(c, s, t) && s.pcs[t].Scan?
  {
    var call, token, i := c.calls[t], s.pcs[t].token, s.pcs[t].i;
    if WaitMode(call) == Any then
      if i == |Waits(call)| then s' == Goto(s, t, Asleep(token, 0))
      else if WaitReached(c, s, t, i) then s' == Goto(s, t, FIRST_RESULT)
      else s' == Goto(s, t, Scan(token, i + 1))
    else
      if i == |Waits(call)| then s' == Goto(s, t, FIRST_RESULT)
      else if WaitReached(c, s, t, i) then s' == Goto(s, t, Scan(token, i + 1))
      else s' == Goto(s, t, Asleep(token, i))
  }

  /** A sleeper leaves once the epoch moved; only a single wait with a finite timeout
      can also give up, because the list wait is always infinite. */
  predicate WakeStep(c: Config, s: State, t: nat, s': State)
    requires Valid(c, s, t) && s.pcs[t].Asleep?
  {
    || (s.epoch != s.pcs[t].token && s' == Goto(s, t, Prepare))
    || (CanTimeOut(c.calls[t]) && s' == Goto(s, t, FIRST_RESULT))
  }

  predicate CanTimeOut(call: Call) {
    |Waits(call)| == 1 && WaitTimeout(call) == Finite
  }

  /** One iteration of `result_from_state`, or its return. */
  predicate ResultsStep(c: Config, s: State, t: nat, s': State)
    requires Valid(c, s, t) && s.pcs[t].Result?
  {
    var call, pc := c.calls[t], s.pcs[t];
    if pc.i == |Waits(call)| then s' == Goto(s, t, AfterWait(call, ResultStatus(WaitMode(call), pc)))
    else s' == Goto(s, t, ResultStep(pc, SemAt(c, s, t, pc.i), Waits(call)[pc.i].payload))
  }

  /** The deferred commands of a submission finish or return an error. */
  predicate CommandStep(c: Config, s: State, t: nat, s': State)
    requires Valid(c, s, t) && s.pcs[t].Running?
  {
    || s' == Goto(s, t, Done(CommandFailed))
    || s' == Goto(s, t, if |Signals(c.calls[t])| == 0 then Done(Ok) else Update(0))
             .(log := s.log + [Finished(t)])
  }

  /** One iteration of the signal loop.  A list of one is `signal`, which does not post
      when the value is rejected. */
  predicate UpdateStep(c: Config, s: State, t: nat, s': State)
    requires Valid(c, s, t) && s.pcs[t].Update?
  {
    var i, points := s.pcs[t].i, Signals(c.calls[t]);
    var k, v := points[i].sem, points[i].payload;
    if v <= s.sems[k].value then
      s' == Goto(s, t, if |points| == 1 then Done(OutOfRange) else Post(OutOfRange))
    else
      s' == Goto(s, t, if i + 1 < |points| then Update(i + 1) else Post(Ok))
            .(sems := s.sems[k := SignalUnsafe(s.sems[k], v)],
              log := s.log + [Signaled(t, k, v)])
  }

  predicate Step(c: Config, s: State, t: nat, s': State)
    requires Shape(c, s)
  {
    t < |s.pcs| &&
    match s.pcs[t]
    case Start => StartStep(c, s, t, s')
    case Prepare => s' == Goto(s, t, Scan(s.epoch, 0))
    case Scan(_, _) => ScanStep(c, s, t, s')
    case Asleep(_, _) => WakeStep(c, s, t, s')
    case Result(_, _, _, _) => ResultsStep(c, s, t, s')
    case Apply => s' == Goto(s, t, Running).(log := s.log + [Began(t)])
    case Running => CommandStep(c, s, t, s')
    case Update(_) => UpdateStep(c, s, t, s')
    case Post(status) => s' == Goto(s, t, Done(status)).(epoch := s.epoch + 1)
    case Done(_) => false
  }

  // ----- runs -----

  ghost predicate Steps(c: Config, s: State, s': State) {
    Shape(c, s) && exists t :: Step(c, s, t, s')
  }

  ghost predicate StepAt(c: Config, run: seq<State>, i: nat)
    requires 0 < i < |run|
  {
    Steps(c, run[i - 1], run[i])
  }

  /** A run starts in the initial state and takes one step of one thread at a time. */
  ghost predicate IsRun(c: Config, run: seq<State>) {
    && ValidConfig(c)
    && |run| > 0
    && run[0] == Init(c)
    && forall i :: 0 < i < |run| ==> StepAt(c, run, i)
  }

  /** What a step does to the shared state, independently of which step it is. */
  predicate Effect(c: Config, s: State, t: nat, s': State)
    requires Shape(c, s) && t < |s.pcs|
  {
    && |s'.sems| == |s.sems| && |s'.pcs| == |s.pcs|
    && s.epoch <= s'.epoch
    && (forall u :: 0 <= u < |s.pcs| && u != t ==> s'.pcs[u] == s.pcs[u])
    && s.log <= s'.log
    && (forall k :: 0 <= k < |s.sems| ==> SemEffect(c, s.sems[k], s'.sems[k]))
  }

  predicate SemEffect(c: Config, a: Sem, b: Sem) {
    || a == b
    || (b.failure == a.failure && b.value > a.value)
    || (a.failure == 0 && b.failure != 0 && b.value == c.failureValue)
  }

  lemma StepEffect(c: Config, s: State, t: nat, s': State)
    requires Shape(c, s) && Step(c, s, t, s')
    ensures Effect(c, s, t, s')
  {
    assert ValidCall(c.calls[t], |c.initial|);
  }

  /** A step changes at most one semaphore, and only while failing or signalling; it posts exactly
      at the posting point, and then changes no semaphore. */
  lemma StepTouchesOne(c: Config, s: State, t: nat, s': State)
    requires Shape(c, s) && Step(c, s, t, s')
    ensures |s'.sems| == |s.sems|
    ensures forall j, k :: 0 <= j < |s.sems| && 0 <= k < |s.sems| && s'.sems[j] != s.sems[j] && s'.sems[k] != s.sems[k] ==> j == k
    ensures s'.sems != s.sems ==> s.pcs[t].Update? || (s.pcs[t].Start? && c.calls[t].Fail?)
    ensures s'.epoch == if s.pcs[t].Post? then s.epoch + 1 else s.epoch
    ensures s.pcs[t].Post? ==> s'.sems == s.sems
  {
    assert ValidCall(c.calls[t], |c.initial|);
  }

  lemma StartPc(c: Config, s: State, t: nat, s': State)
    requires Shape(c, s) && t < |s.pcs| && s.pcs[t].Start? && StartStep(c, s, t, s') && |s'.pcs| == |s.pcs|
    ensures PcOk(c.calls[t], s'.pcs[t], s'.epoch)
  {
    assert ValidCall(c.calls[t], |c.initial|);
  }

  /** The thread that moved is inside its lists again. */
  lemma OwnPc(c: Config, s: State, t: nat, s': State)
    requires Shape(c, s) && Step(c, s, t, s') && |s'.pcs| == |s.pcs|
    ensures PcOk(c.calls[t], s'.pcs[t], s'.epoch)
  {
    assert PcOk(c.calls[t], s.pcs[t], s.epoch);
    if s.pcs[t].Start? { StartPc(c, s, t, s'); }
  }

  lemma StepShape(c: Config, s: State, t: nat, s': State)
    requires Shape(c, s) && Step(c, s, t, s')
    ensures Shape(c, s')
  {
    StepEffect(c, s, t, s');
    OwnPc(c, s, t, s');
    forall u | 0 <= u < |s'.pcs| ensures PcOk(c.calls[u], s'.pcs[u], s'.epoch) {
      assert PcOk(c.calls[u], s.pcs[u], s.epoch);
    }
  }
}
