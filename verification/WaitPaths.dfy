/** Which calls sleep and which ones post: a poll never waits, a wait misses its deadline only after
    it slept, and the epoch counts the calls that notify the waiters. */
module WaitPaths {
  import opened Semaphores
  import opened SemaphoreSafety

  // ----- sleeping -----

  predicate Waiting(pc: Pc) {
    pc.Prepare? || pc.Scan? || pc.Asleep?
  }

  predicate Polls(call: Call) {
    call.MultiWait? && call.timeout == Immediate
  }

  ghost predicate Slept(run: seq<State>, t: nat) {
    exists j :: 0 <= j < |run| && t < |run[j].pcs| && run[j].pcs[t].Asleep?
  }

  /** The call has seen its one semaphore reach the payload. */
  predicate SawOne(c: Config, s: State, t: nat)
    requires Valid(c, s, t) && s.pcs[t].Result? && |Waits(c.calls[t])| == 1
  {
    var pc := s.pcs[t];
    && WaitReached(c, s, t, 0)
    && (if WaitMode(c.calls[t]) == All then pc.allSignaled else pc.i > 0 ==> pc.anySignaled || pc.anyFailed)
  }

  ghost predicate PathOk(c: Config, run: seq<State>, t: nat)
    requires run != [] && Valid(c, run[|run| - 1], t)
  {
    var s, call := run[|run| - 1], c.calls[t];
    && (Polls(call) ==> !Waiting(s.pcs[t]) && !Slept(run, t))
    && (MayMissDeadline(call) && !Polls(call) && s.pcs[t].Result? ==> Slept(run, t) || SawOne(c, s, t))
    && (s.pcs[t] == Done(DeadlineExceeded) && !Polls(call) ==> Slept(run, t))
    && (s.pcs[t] == Post(DeadlineExceeded) ==> false)
  }

  lemma SleptExtends(run: seq<State>, s': State, t: nat)
    ensures Slept(run + [s'], t) <==> Slept(run, t) || (t < |s'.pcs| && s'.pcs[t].Asleep?)
  {
    var next := run + [s'];
    if Slept(run, t) {
      var j :| 0 <= j < |run| && t < |run[j].pcs| && run[j].pcs[t].Asleep?;
      assert next[j] == run[j];
    }
    if t < |s'.pcs| && s'.pcs[t].Asleep? { assert next[|run|] == s'; }
    if Slept(next, t) {
      var j :| 0 <= j < |next| && t < |next[j].pcs| && next[j].pcs[t].Asleep?;
      if j < |run| { assert run[j] == next[j]; }
    }
  }

  lemma OtherPath(c: Config, run: seq<State>, s: State, u: nat, s': State, t: nat)
    requires run != [] && run[|run| - 1] == s && Shape(c, s) && Step(c, s, u, s') && Shape(c, s') && t < |s.pcs| && u != t
    requires PathOk(c, run, t)
    ensures PathOk(c, run + [s'], t)
  {
    StepEffect(c, s, u, s');
    SleptExtends(run, s', t);
    var sem := if |Waits(c.calls[t])| == 1 then Waits(c.calls[t])[0].sem else 0;
    assert ValidCall(c.calls[t], |c.initial|);
    if |Waits(c.calls[t])| == 1 { assert SemEffect(c, s.sems[sem], s'.sems[sem]); }
  }

  lemma OwnPath(c: Config, run: seq<State>, s: State, t: nat, s': State)
    requires run != [] && run[|run| - 1] == s && Shape(c, s) && Step(c, s, t, s') && Shape(c, s')
    requires PathOk(c, run, t) && ScanSound(c, s, t) && ScanSound(c, s', t)
    ensures PathOk(c, run + [s'], t)
  {
    SleptExtends(run, s', t);
    assert PcOk(c.calls[t], s.pcs[t], s.epoch) && PcOk(c.calls[t], s'.pcs[t], s'.epoch);
    if s.pcs[t].Asleep? { assert run[|run| - 1].pcs[t].Asleep? && Slept(run, t); }
    if s'.pcs[t].Result? && |Waits(c.calls[t])| == 1 {
      assert s'.sems == s.sems && WaitReached(c, s', t, 0) == WaitReached(c, s, t, 0);
    }
  }

  ghost predicate PathInv(c: Config, run: seq<State>) {
    run != [] && Shape(c, run[|run| - 1]) && forall t :: 0 <= t < |c.calls| ==> PathOk(c, run, t)
  }

  lemma StepKeepsPaths(c: Config, run: seq<State>, s: State, u: nat, s': State)
    requires PathInv(c, run) && run[|run| - 1] == s && Step(c, s, u, s') && ScanInv(c, s)
    ensures PathInv(c, run + [s'])
  {
    StepShape(c, s, u, s');
    StepKeepsScanInv(c, s, u, s');
    forall t | 0 <= t < |c.calls| ensures PathOk(c, run + [s'], t) {
      assert PathOk(c, run, t) && ScanSound(c, s, t) && ScanSound(c, s', t);
      if t == u { OwnPath(c, run, s, t, s'); } else { OtherPath(c, run, s, u, s', t); }
    }
  }

  lemma {:induction false} RunKeepsPaths(c: Config, run: seq<State>)
    requires IsRun(c, run)
    ensures PathInv(c, run)
  {
    var n := |run| - 1;
    if n > 0 {
      PrefixIsRun(c, run, n);
      RunKeepsPaths(c, run[..n]);
      RunKeepsScanInv(c, run[..n]);
      assert StepAt(c, run, n) && run == run[..n] + [run[n]];
      var u :| Step(c, run[n - 1], u, run[n]);
      StepKeepsPaths(c, run[..n], run[n - 1], u, run[n]);
    }
  }

  /** A call with an immediate deadline is never found waiting. */
  lemma PollsNeverWait(c: Config, run: seq<State>, t: nat)
    requires IsRun(c, run) && t < |c.calls| && Polls(c.calls[t])
    ensures !Slept(run, t) && t < |run[|run| - 1].pcs| && !Waiting(run[|run| - 1].pcs[t])
  {
    RunKeepsPaths(c, run);
    assert PathOk(c, run, t);
  }

  /** A call that misses its deadline either polled, or is a finite wait on one semaphore and has been
      asleep. */
  lemma MissedAfterSleep(c: Config, run: seq<State>, t: nat)
    requires IsRun(c, run) && t < |run[|run| - 1].pcs| && run[|run| - 1].pcs[t] == Done(DeadlineExceeded)
    ensures t < |c.calls| && c.calls[t].MultiWait?
    ensures var call := c.calls[t];
            call.timeout == Immediate || (call.timeout == Finite && |call.points| == 1 && Slept(run, t))
  {
    RunKeepsPaths(c, run);
    NoSpuriousDeadline(c, run, t);
    assert PathOk(c, run, t);
  }

  // ----- posting -----

  /** The call has returned and has notified the waiters: a failure that was the first, a list of
      which something was signalled, or a longer list that was rejected. */
  predicate Posted(call: Call, pc: Pc, log: seq<Event>, t: nat) {
    pc.Done? &&
    match call
    case Fail(k, _) => Failed(t, k) in log
    case MultiSignal(points) => (pc.status == Ok && points != []) || (pc.status == OutOfRange && |points| > 1)
    case Execute(_, points) => (pc.status == Ok && points != []) || (pc.status == OutOfRange && |points| > 1)
    case MultiWait(_, _, _) => false
  }

  function Posts(calls: seq<Call>, pcs: seq<Pc>, log: seq<Event>): nat
    requires |calls| == |pcs|
  {
    if pcs == [] then 0
    else
      var n := |pcs| - 1;
      Posts(calls[..n], pcs[..n], log) + if Posted(calls[n], pcs[n], log, n) then 1 else 0
  }

  /** A call that is about to post is one of those, and one that has not begun has logged nothing. */
  predicate PostSound(c: Config, s: State, t: nat)
    requires Valid(c, s, t)
  {
    match s.pcs[t]
    case Start => c.calls[t].Fail? ==> Failed(t, c.calls[t].sem) !in s.log
    case Post(status) => Posted(c.calls[t], Done(status), s.log, t)
    case _ => true
  }

  predicate PostInv(c: Config, s: State) {
    && Shape(c, s) && s.epoch == Posts(c.calls, s.pcs, s.log)
    && forall t :: 0 <= t < |s.pcs| ==> PostSound(c, s, t)
  }

  lemma {:induction false} PostsChange(calls: seq<Call>, pcs: seq<Pc>, log: seq<Event>, pcs': seq<Pc>, log': seq<Event>, t: nat)
    requires |calls| == |pcs| == |pcs'|
    requires forall u :: 0 <= u < |pcs| && u != t ==> Posted(calls[u], pcs'[u], log', u) == Posted(calls[u], pcs[u], log, u)
    ensures Posts(calls, pcs', log') + (if t < |pcs| && Posted(calls[t], pcs[t], log, t) then 1 else 0) ==
            Posts(calls, pcs, log) + if t < |pcs| && Posted(calls[t], pcs'[t], log', t) then 1 else 0
    decreases |pcs|
  {
    if pcs != [] {
      var n := |pcs| - 1;
      PostsChange(calls[..n], pcs[..n], log, pcs'[..n], log', t);
    }
  }

  /** Only the thread that moves logs anything. */
  lemma LogsOwn(c: Config, s: State, t: nat, s': State, u: nat, k: nat)
    requires Shape(c, s) && Step(c, s, t, s') && u != t
    ensures Failed(u, k) in s'.log <==> Failed(u, k) in s.log
  {
  }

  lemma OwnPosted(c: Config, s: State, t: nat, s': State)
    requires Shape(c, s) && Step(c, s, t, s') && Shape(c, s') && PostSound(c, s, t)
    ensures PostSound(c, s', t) && !Posted(c.calls[t], s.pcs[t], s.log, t)
    ensures Posted(c.calls[t], s'.pcs[t], s'.log, t) <==> s.pcs[t].Post?
    ensures s'.epoch == s.epoch + if s.pcs[t].Post? then 1 else 0
  {
    assert PcOk(c.calls[t], s.pcs[t], s.epoch) && PcOk(c.calls[t], s'.pcs[t], s'.epoch);
    assert ValidCall(c.calls[t], |c.initial|);
  }

  lemma StepKeepsPosts(c: Config, s: State, t: nat, s': State)
    requires PostInv(c, s) && Step(c, s, t, s')
    ensures PostInv(c, s')
  {
    StepShape(c, s, t, s');
    StepEffect(c, s, t, s');
    assert PostSound(c, s, t);
    OwnPosted(c, s, t, s');
    forall u | 0 <= u < |s.pcs| && u != t
      ensures Posted(c.calls[u], s'.pcs[u], s'.log, u) == Posted(c.calls[u], s.pcs[u], s.log, u) && PostSound(c, s', u)
    {
      assert PostSound(c, s, u);
      if c.calls[u].Fail? { LogsOwn(c, s, t, s', u, c.calls[u].sem); }
    }
    PostsChange(c.calls, s.pcs, s.log, s'.pcs, s'.log, t);
  }

  lemma {:induction false} NoneYet(calls: seq<Call>, pcs: seq<Pc>, log: seq<Event>)
    requires |calls| == |pcs| && forall t :: 0 <= t < |pcs| ==> pcs[t].Start?
    ensures Posts(calls, pcs, log) == 0
    decreases |pcs|
  {
    if pcs != [] {
      var n := |pcs| - 1;
      NoneYet(calls[..n], pcs[..n], log);
    }
  }

  /** In every run the epoch is the number of returned calls that had something to tell the waiters. */
  lemma {:induction false} EpochCounts(c: Config, run: seq<State>)
    requires IsRun(c, run)
    ensures PostInv(c, run[|run| - 1])
  {
    var n := |run| - 1;
    if n == 0 {
      NoneYet(c.calls, Init(c).pcs, []);
    } else {
      PrefixIsRun(c, run, n);
      EpochCounts(c, run[..n]);
      assert StepAt(c, run, n);
      var t :| Step(c, run[n - 1], t, run[n]);
      StepKeepsPosts(c, run[n - 1], t, run[n]);
    }
  }
}
