/** What a call that returned has done: which entries of its list were signalled, in which order,
    and what a wait that failed has seen. */
module SignalDelivery {
  import opened Semaphores
  import opened SemaphoreSafety

  /** What thread `t` has done, in order. */
  function EventsBy(log: seq<Event>, t: nat): seq<Event> {
    if log == [] then []
    else
      var n := |log| - 1;
      EventsBy(log[..n], t) + if log[n].thread == t then [log[n]] else []
  }

  /** A list signalled by thread `t`, entry by entry. */
  function Sent(points: seq<Point>, t: nat): seq<Event> {
    seq(|points|, k requires 0 <= k < |points| => Signaled(t, points[k].sem, points[k].payload))
  }

  /** What a submission does before it signals. */
  function Commands(call: Call, t: nat): seq<Event> {
    if call.Execute? then [Began(t), Finished(t)] else []
  }

  /** At some point of the run, thread `t` came to entry `i` and found its payload not above the
      value of the semaphore. */
  ghost predicate Rejected(c: Config, run: seq<State>, t: nat, i: nat) {
    && t < |c.calls| && i < |Signals(c.calls[t])|
    && var p := Signals(c.calls[t])[i];
       exists j :: 0 <= j < |run| && t < |run[j].pcs| && run[j].pcs[t] == Update(i) &&
                   p.sem < |run[j].sems| && p.payload <= run[j].sems[p.sem].value
  }

  /** At some point of the run, semaphore `k` of the wait had not failed and was below its payload. */
  ghost predicate SawBelow(c: Config, run: seq<State>, t: nat, k: nat) {
    && t < |c.calls| && k < |Waits(c.calls[t])|
    && var p := Waits(c.calls[t])[k];
       exists j :: 0 <= j < |run| && p.sem < |run[j].sems| && Below(run[j].sems[p.sem], p.payload)
  }

  predicate Below(s: Sem, payload: nat) {
    s.failure == 0 && s.value < payload
  }

  ghost predicate SawFailed(c: Config, s: State, t: nat, upTo: nat) {
    t < |c.calls| && upTo <= |Waits(c.calls[t])| &&
    exists k :: 0 <= k < upTo && Waits(c.calls[t])[k].sem < |s.sems| && s.sems[Waits(c.calls[t])[k].sem].failure != 0
  }

  /** What made the wait miss its deadline: one semaphore of an ALL wait, every one of an ANY wait. */
  ghost predicate SawMissing(c: Config, run: seq<State>, t: nat) {
    t < |c.calls| &&
    if WaitMode(c.calls[t]) == All then exists k :: SawBelow(c, run, t, k)
    else forall k :: 0 <= k < |Waits(c.calls[t])| ==> SawBelow(c, run, t, k)
  }

  /** The program point of a thread tells what the thread has done. */
  ghost predicate Delivered(c: Config, run: seq<State>, t: nat)
    requires |run| > 0 && Valid(c, run[|run| - 1], t)
  {
    var call, done := c.calls[t], EventsBy(run[|run| - 1].log, t);
    match run[|run| - 1].pcs[t]
    case Running => done == [Began(t)]
    case Update(i) => i <= |Signals(call)| && done == Commands(call, t) + Sent(Signals(call)[..i], t)
    case Post(status) =>
      if status == OutOfRange then Stopped(c, run, t, done)
      else status == Ok && done == if call.Fail? then [Failed(t, call.sem)] else Commands(call, t) + Sent(Signals(call), t)
    case Done(status) => Outcome(c, run, t, status, done)
    case _ => done == []
  }

  /** What a call that returned `status` has done. */
  ghost predicate Outcome(c: Config, run: seq<State>, t: nat, status: Status, done: seq<Event>) {
    && t < |c.calls|
    && var call := c.calls[t];
       match status
       case Ok => if call.Fail? then done in {[], [Failed(t, call.sem)]} else done == Commands(call, t) + Sent(Signals(call), t)
       case OutOfRange => Stopped(c, run, t, done)
       case CommandFailed => call.Execute? && done == [Began(t)]
       case _ => IsWait(call) && done == []
  }

  /** Entry `i` was rejected; those before it were signalled. */
  ghost predicate StoppedAt(c: Config, run: seq<State>, t: nat, done: seq<Event>, i: nat) {
    Rejected(c, run, t, i) && done == Commands(c.calls[t], t) + Sent(Signals(c.calls[t])[..i], t)
  }

  ghost predicate Stopped(c: Config, run: seq<State>, t: nat, done: seq<Event>) {
    exists i :: StoppedAt(c, run, t, done, i)
  }

  /** What the program point of a waiter says about what it has seen. */
  ghost predicate Witnessed(c: Config, run: seq<State>, t: nat)
    requires |run| > 0 && Valid(c, run[|run| - 1], t)
  {
    var s := run[|run| - 1];
    match s.pcs[t]
    case Result(i, anySignaled, allSignaled, anyFailed) =>
      && (!allSignaled ==> exists k :: SawBelow(c, run, t, k))
      && (!anySignaled && !anyFailed ==> forall k :: 0 <= k < i ==> SawBelow(c, run, t, k))
      && (anyFailed ==> SawFailed(c, s, t, i))
    case Done(status) =>
      && (status == Aborted ==> SawFailed(c, s, t, |Waits(c.calls[t])|))
      && (status == DeadlineExceeded ==> SawMissing(c, run, t))
    case Post(status) => status in {Ok, OutOfRange}
    case _ => true
  }

  // ----- one step -----

  lemma EventsByGrow(s: State, s': State, t: nat)
    requires s.log <= s'.log && |s'.log| <= |s.log| + 1
    ensures |s'.log| == |s.log| ==> EventsBy(s'.log, t) == EventsBy(s.log, t)
    ensures |s'.log| > |s.log| ==>
              EventsBy(s'.log, t) == EventsBy(s.log, t) + if s'.log[|s.log|].thread == t then [s'.log[|s.log|]] else []
  {
    if |s'.log| == |s.log| { assert s'.log == s.log; } else { assert s'.log[..|s.log|] == s.log; }
  }

  lemma RejectedStays(c: Config, run: seq<State>, s': State, t: nat, i: nat)
    requires Rejected(c, run, t, i)
    ensures Rejected(c, run + [s'], t, i)
  {
    var p := Signals(c.calls[t])[i];
    var j :| 0 <= j < |run| && t < |run[j].pcs| && run[j].pcs[t] == Update(i) &&
             p.sem < |run[j].sems| && p.payload <= run[j].sems[p.sem].value;
    assert (run + [s'])[j] == run[j];
  }

  lemma StoppedStays(c: Config, run: seq<State>, s': State, t: nat, done: seq<Event>)
    requires Stopped(c, run, t, done)
    ensures Stopped(c, run + [s'], t, done)
  {
    var i :| StoppedAt(c, run, t, done, i);
    RejectedStays(c, run, s', t, i);
    assert StoppedAt(c, run + [s'], t, done, i);
  }

  lemma SawBelowStays(c: Config, run: seq<State>, s': State, t: nat, k: nat)
    requires SawBelow(c, run, t, k)
    ensures SawBelow(c, run + [s'], t, k)
  {
    var p := Waits(c.calls[t])[k];
    var j :| 0 <= j < |run| && p.sem < |run[j].sems| && Below(run[j].sems[p.sem], p.payload);
    assert (run + [s'])[j] == run[j];
  }

  lemma AllSawStays(c: Config, run: seq<State>, s': State, t: nat)
    ensures forall k :: SawBelow(c, run, t, k) ==> SawBelow(c, run + [s'], t, k)
  {
    forall k | SawBelow(c, run, t, k) ensures SawBelow(c, run + [s'], t, k) { SawBelowStays(c, run, s', t, k); }
  }

  lemma SawFailedStays(c: Config, s: State, u: nat, s': State, t: nat, upTo: nat)
    requires Shape(c, s) && Step(c, s, u, s') && SawFailed(c, s, t, upTo)
    ensures SawFailed(c, s', t, upTo)
  {
    var k :| 0 <= k < upTo && Waits(c.calls[t])[k].sem < |s.sems| && s.sems[Waits(c.calls[t])[k].sem].failure != 0;
    ValueFallsOnlyOnFailure(c, s, u, s', Waits(c.calls[t])[k].sem);
  }

  /** The run ends in `s`, and thread `t` moves on to `s'`. */
  ghost predicate Extends(c: Config, run: seq<State>, s: State, t: nat, s': State) {
    |run| > 0 && run[|run| - 1] == s && Shape(c, s) && Step(c, s, t, s') && Shape(c, s')
  }

  lemma LogStep(c: Config, s: State, t: nat, s': State)
    requires Shape(c, s) && Step(c, s, t, s')
    ensures s.log <= s'.log && |s'.log| <= |s.log| + 1
    ensures |s'.log| > |s.log| ==> s'.log[|s.log|].thread == t
  {
  }

  lemma OtherDelivered(c: Config, run: seq<State>, s: State, t: nat, s': State, u: nat)
    requires Extends(c, run, s, t, s') && u != t && u < |s.pcs| && Delivered(c, run, u) && Witnessed(c, run, u)
    ensures Valid(c, s', u) && Delivered(c, run + [s'], u) && Witnessed(c, run + [s'], u)
  {
    StepEffect(c, s, t, s');
    LogStep(c, s, t, s');
    EventsByGrow(s, s', u);
    if Stopped(c, run, u, EventsBy(s.log, u)) { StoppedStays(c, run, s', u, EventsBy(s.log, u)); }
    AllSawStays(c, run, s', u);
    var upTo := if s.pcs[u].Result? then s.pcs[u].i else |Waits(c.calls[u])|;
    if SawFailed(c, s, u, upTo) { SawFailedStays(c, s, t, s', u, upTo); }
  }

  /** One entry signalled, or the entry at which the loop stops. */
  lemma UpdateDelivered(c: Config, run: seq<State>, s: State, t: nat, s': State, i: nat)
    requires Extends(c, run, s, t, s') && Delivered(c, run, t) && s.pcs[t] == Update(i)
    ensures Valid(c, s', t) && Delivered(c, run + [s'], t)
  {
    var call, run' := c.calls[t], run + [s'];
    var points := Signals(call);
    assert ValidCall(call, |c.initial|) && PcOk(call, s.pcs[t], s.epoch);
    assert UpdateStep(c, s, t, s');
    EventsByGrow(s, s', t);
    if points[i].payload <= s.sems[points[i].sem].value {
      assert run'[|run| - 1] == s;
      assert StoppedAt(c, run', t, EventsBy(s'.log, t), i);
    } else {
      assert Sent(points[..i + 1], t) == Sent(points[..i], t) + [Signaled(t, points[i].sem, points[i].payload)];
      assert Commands(call, t) + (Sent(points[..i], t) + [Signaled(t, points[i].sem, points[i].payload)]) ==
             (Commands(call, t) + Sent(points[..i], t)) + [Signaled(t, points[i].sem, points[i].payload)];
      if i + 1 == |points| { assert points[..i + 1] == points; }
    }
  }

  lemma PostDelivered(c: Config, run: seq<State>, s: State, t: nat, s': State)
    requires Extends(c, run, s, t, s') && Delivered(c, run, t) && s.pcs[t].Post?
    ensures Valid(c, s', t) && Delivered(c, run + [s'], t)
  {
    EventsByGrow(s, s', t);
    if s.pcs[t].status == OutOfRange { StoppedStays(c, run, s', t, EventsBy(s.log, t)); }
  }

  /** Before the signal loop. */
  lemma EarlyDelivered(c: Config, run: seq<State>, s: State, t: nat, s': State)
    requires Extends(c, run, s, t, s') && Delivered(c, run, t) && !s.pcs[t].Post? && !s.pcs[t].Update?
    ensures Valid(c, s', t) && Delivered(c, run + [s'], t)
  {
    var call := c.calls[t];
    assert ValidCall(call, |c.initial|) && PcOk(call, s.pcs[t], s.epoch);
    LogStep(c, s, t, s');
    EventsByGrow(s, s', t);
    assert Sent([], t) == [] && Signals(call)[..0] == [];
    EarlyPc(c, s, t, s');
  }

  /** Where a step outside the signal loop leads, and what it logs. */
  lemma EarlyPc(c: Config, s: State, t: nat, s': State)
    requires Shape(c, s) && Step(c, s, t, s') && !s.pcs[t].Post? && !s.pcs[t].Update? && |s'.pcs| == |s.pcs|
    ensures var call, pc, pc' := c.calls[t], s.pcs[t], s'.pcs[t];
            && s'.log == s.log + (if pc.Apply? then [Began(t)]
                                  else if pc.Running? && pc' != Done(CommandFailed) then [Finished(t)]
                                  else if pc.Start? && pc'.Post? then [Failed(t, if call.Fail? then call.sem else 0)]
                                  else [])
            && (pc.Apply? ==> pc' == Running) && (pc'.Running? ==> pc.Apply?)
            && (pc.Running? ==> pc' in {Done(CommandFailed), Done(Ok), Update(0)})
            && (pc'.Update? ==> pc' == Update(0) && (pc.Running? || (pc.Start? && call.MultiSignal?)))
            && (pc'.Post? ==> pc.Start? && call.Fail? && pc' == Post(Ok))
            && (pc'.Done? && !pc.Running? ==> pc'.status in {Ok, Aborted, DeadlineExceeded})
            && (pc' == Done(Ok) ==> Signals(call) == [] && (pc.Running? || !call.Execute?))
            && (pc'.Done? && pc'.status in {Aborted, DeadlineExceeded} ==> IsWait(call))
  {
    assert PcOk(c.calls[t], s.pcs[t], s.epoch);
    if s.pcs[t].Start? { EarlyStart(c, s, t, s'); }
  }

  lemma EarlyStart(c: Config, s: State, t: nat, s': State)
    requires Shape(c, s) && Step(c, s, t, s') && s.pcs[t].Start? && |s'.pcs| == |s.pcs|
    ensures var call, pc' := c.calls[t], s'.pcs[t];
            && s'.log == s.log + (if pc'.Post? then [Failed(t, if call.Fail? then call.sem else 0)] else [])
            && !pc'.Running? && (pc'.Update? ==> pc' == Update(0) && call.MultiSignal?)
            && (pc'.Post? ==> call.Fail? && pc' == Post(Ok))
            && (pc'.Done? ==> pc'.status in {Ok, Aborted, DeadlineExceeded})
            && (pc' == Done(Ok) ==> Signals(call) == [] && !call.Execute?)
            && (pc'.Done? && pc'.status != Ok ==> IsWait(call))
  {
  }

  lemma OwnDelivered(c: Config, run: seq<State>, s: State, t: nat, s': State)
    requires Extends(c, run, s, t, s') && Delivered(c, run, t)
    ensures Valid(c, s', t) && Delivered(c, run + [s'], t)
  {
    if s.pcs[t].Update? { UpdateDelivered(c, run, s, t, s', s.pcs[t].i); }
    else if s.pcs[t].Post? { PostDelivered(c, run, s, t, s'); }
    else { EarlyDelivered(c, run, s, t, s'); }
  }

  lemma OwnWitnessed(c: Config, run: seq<State>, s: State, t: nat, s': State)
    requires Extends(c, run, s, t, s') && Witnessed(c, run, t)
    ensures Valid(c, s', t) && Witnessed(c, run + [s'], t)
  {
    var call, run' := c.calls[t], run + [s'];
    assert ValidCall(call, |c.initial|) && PcOk(call, s.pcs[t], s.epoch);
    AllSawStays(c, run, s', t);
    if s.pcs[t].Result? {
      ResultWitnessed(c, run, s, t, s');
    } else if s.pcs[t].Start? && IsWait(call) && |Waits(call)| == 1 {
      var p := Waits(call)[0];
      assert run'[|run| - 1] == s;
      if Below(s.sems[p.sem], p.payload) { assert SawBelow(c, run', t, 0); }
      if s.sems[p.sem].failure != 0 { assert SawFailed(c, s', t, 1); }
    }
  }

  lemma ResultWitnessed(c: Config, run: seq<State>, s: State, t: nat, s': State)
    requires Extends(c, run, s, t, s') && Witnessed(c, run, t) && s.pcs[t].Result?
    ensures Valid(c, s', t) && Witnessed(c, run + [s'], t)
  {
    var call, i, run' := c.calls[t], s.pcs[t].i, run + [s'];
    assert ValidCall(call, |c.initial|) && PcOk(call, s.pcs[t], s.epoch);
    AllSawStays(c, run, s', t);
    if SawFailed(c, s, t, i) { SawFailedStays(c, s, t, s', t, i); }
    if i < |Waits(call)| {
      var p := Waits(call)[i];
      assert run'[|run| - 1] == s;
      if Below(s.sems[p.sem], p.payload) { assert SawBelow(c, run', t, i); }
      if SawFailed(c, s', t, i) { FailedExtends(c, s', t, i); }
      if s.sems[p.sem].failure != 0 { assert s'.sems == s.sems && SawFailed(c, s', t, i + 1); }
    }
  }

  lemma FailedExtends(c: Config, s: State, t: nat, i: nat)
    requires SawFailed(c, s, t, i) && i < |Waits(c.calls[t])|
    ensures SawFailed(c, s, t, i + 1)
  {
  }

  // ----- whole runs -----

  ghost predicate DeliveryInv(c: Config, run: seq<State>) {
    && |run| > 0 && Shape(c, run[|run| - 1])
    && forall t :: 0 <= t < |run[|run| - 1].pcs| ==> Delivered(c, run, t) && Witnessed(c, run, t)
  }

  lemma StepKeepsDelivery(c: Config, run: seq<State>, s': State)
    requires DeliveryInv(c, run) && Steps(c, run[|run| - 1], s')
    ensures DeliveryInv(c, run + [s'])
  {
    var s := run[|run| - 1];
    var t :| Step(c, s, t, s');
    StepShape(c, s, t, s');
    StepEffect(c, s, t, s');
    forall u | 0 <= u < |s'.pcs| ensures Delivered(c, run + [s'], u) && Witnessed(c, run + [s'], u) {
      if u == t {
        OwnDelivered(c, run, s, t, s');
        OwnWitnessed(c, run, s, t, s');
      } else {
        OtherDelivered(c, run, s, t, s', u);
      }
    }
  }

  lemma {:induction false} RunKeepsDelivery(c: Config, run: seq<State>)
    requires IsRun(c, run)
    ensures DeliveryInv(c, run)
  {
    var n := |run| - 1;
    if n > 0 {
      PrefixIsRun(c, run, n);
      RunKeepsDelivery(c, run[..n]);
      assert StepAt(c, run, n) && run[..n][n - 1] == run[n - 1];
      StepKeepsDelivery(c, run[..n], run[n]);
      assert run == run[..n] + [run[n]];
    }
  }

  /** In every run, a call that returned has done exactly this, in this order: with OK, a submission
      ran its commands once, and every entry of the signal list was signalled in list order; with
      OUT_OF_RANGE, the entries before a rejected one; with a failed command, nothing was signalled;
      with a failed wait, nothing was done. */
  lemma ReturnedDid(c: Config, run: seq<State>, t: nat)
    requires IsRun(c, run)
    ensures var s := run[|run| - 1];
            t < |s.pcs| && s.pcs[t].Done? ==> Outcome(c, run, t, s.pcs[t].status, EventsBy(s.log, t))
  {
    RunKeepsDelivery(c, run);
    if t < |run[|run| - 1].pcs| { assert Delivered(c, run, t); }
  }

  /** Every entry of the list of a call that returned OK is in the log, and in list order. */
  lemma OkSignalledAll(c: Config, run: seq<State>, t: nat)
    requires IsRun(c, run)
    ensures var s := run[|run| - 1];
            t < |s.pcs| && t < |c.calls| && s.pcs[t] == Done(Ok) && !c.calls[t].Fail? ==>
              && EventsBy(s.log, t) == Commands(c.calls[t], t) + Sent(Signals(c.calls[t]), t)
              && forall p :: p in Signals(c.calls[t]) ==> Signaled(t, p.sem, p.payload) in s.log
  {
    ReturnedDid(c, run, t);
    var s := run[|run| - 1];
    if t < |s.pcs| && t < |c.calls| && s.pcs[t] == Done(Ok) && !c.calls[t].Fail? {
      EventsInLog(s.log, t);
      var points := Signals(c.calls[t]);
      forall p | p in points ensures Signaled(t, p.sem, p.payload) in s.log {
        var k :| 0 <= k < |points| && points[k] == p;
        assert EventsBy(s.log, t)[|Commands(c.calls[t], t)| + k] == Signaled(t, p.sem, p.payload);
      }
    }
  }

  lemma {:induction false} EventsInLog(log: seq<Event>, t: nat)
    ensures forall e :: e in EventsBy(log, t) ==> e in log
  {
    if log != [] { EventsInLog(log[..|log| - 1], t); }
  }

  /** A call that returned OUT_OF_RANGE came to an entry `i` that was not above the current value, in
      state `j` of the run; it has signalled the entries before it and none from it on. */
  lemma RejectedSignalledBefore(c: Config, run: seq<State>, t: nat) returns (i: nat, j: nat)
    requires IsRun(c, run) && t < |run[|run| - 1].pcs| && run[|run| - 1].pcs[t] == Done(OutOfRange)
    ensures t < |c.calls| && i < |Signals(c.calls[t])| && j < |run| && Valid(c, run[j], t) && run[j].pcs[t] == Update(i)
    ensures var p := Signals(c.calls[t])[i]; p.sem < |run[j].sems| && p.payload <= run[j].sems[p.sem].value
    ensures EventsBy(run[|run| - 1].log, t) == Commands(c.calls[t], t) + Sent(Signals(c.calls[t])[..i], t)
  {
    ReturnedDid(c, run, t);
    var s := run[|run| - 1];
    i :| StoppedAt(c, run, t, EventsBy(s.log, t), i);
    var p := Signals(c.calls[t])[i];
    j :| 0 <= j < |run| && t < |run[j].pcs| && run[j].pcs[t] == Update(i) &&
         p.sem < |run[j].sems| && p.payload <= run[j].sems[p.sem].value;
    RunShape(c, run, j);
  }

  lemma {:induction false} RunShape(c: Config, run: seq<State>, i: nat)
    requires IsRun(c, run) && i < |run|
    ensures Shape(c, run[i])
  {
    if i > 0 {
      RunShape(c, run, i - 1);
      assert StepAt(c, run, i);
      var t :| Step(c, run[i - 1], t, run[i]);
      StepShape(c, run[i - 1], t, run[i]);
    }
  }

  /** A wait that failed has a reason: an awaited semaphore that has failed, or semaphores that were
      below their payloads, one for ALL and each of them for ANY. */
  lemma FailedWaitHasReason(c: Config, run: seq<State>, t: nat)
    requires IsRun(c, run)
    ensures var s := run[|run| - 1];
            t < |s.pcs| ==>
              && (s.pcs[t] == Done(Aborted) ==> t < |c.calls| && SawFailed(c, s, t, |Waits(c.calls[t])|))
              && (s.pcs[t] == Done(DeadlineExceeded) ==> SawMissing(c, run, t))
  {
    RunKeepsDelivery(c, run);
    if t < |run[|run| - 1].pcs| { assert Witnessed(c, run, t); }
  }

  // ----- what a semaphore shows -----

  /** The log and the semaphores agree. */
  ghost predicate Shown(c: Config, s: State) {
    && Shape(c, s)
    && (forall p :: 0 <= p < |s.log| ==> EventShown(c, s, s.log[p]))
    && (forall t :: 0 <= t < |s.pcs| ==> FailShown(c, s, t))
  }

  /** A signalled value has been reached; a failure that was logged is the one that is kept. */
  predicate EventShown(c: Config, s: State, e: Event)
    requires Shape(c, s)
  {
    match e
    case Signaled(_, k, v) => k < |s.sems| && Reaches(s.sems[k], v)
    case Failed(t, k) => t < |c.calls| && c.calls[t].Fail? && k < |s.sems| && s.sems[k].failure == c.calls[t].code != 0
    case _ => true
  }

  /** A call of `fail` that has passed its critical section leaves a failed semaphore. */
  predicate FailShown(c: Config, s: State, t: nat)
    requires Valid(c, s, t)
  {
    c.calls[t].Fail? && !s.pcs[t].Start? ==> c.calls[t].sem < |s.sems| && s.sems[c.calls[t].sem].failure != 0
  }

  lemma StepShows(c: Config, s: State, t: nat, s': State)
    requires Shown(c, s) && Step(c, s, t, s')
    ensures Shown(c, s')
  {
    StepShape(c, s, t, s');
    StepEffect(c, s, t, s');
    LogStep(c, s, t, s');
    assert ValidCall(c.calls[t], |c.initial|);
    forall p | 0 <= p < |s'.log| ensures EventShown(c, s', s'.log[p]) {
      if p < |s.log| {
        assert EventShown(c, s, s.log[p]);
        EventStaysShown(c, s, t, s', s.log[p]);
      }
    }
    forall u | 0 <= u < |s'.pcs| ensures FailShown(c, s', u) {
      assert FailShown(c, s, u);
      if c.calls[u].Fail? && !s'.pcs[u].Start? { FailStays(c, s, t, s', u); }
    }
  }

  lemma EventStaysShown(c: Config, s: State, t: nat, s': State, e: Event)
    requires Shape(c, s) && Step(c, s, t, s') && Shape(c, s') && EventShown(c, s, e)
    ensures EventShown(c, s', e)
  {
    if e.Signaled? || e.Failed? { ValueFallsOnlyOnFailure(c, s, t, s', e.sem); }
  }

  lemma FailStays(c: Config, s: State, t: nat, s': State, u: nat)
    requires Shape(c, s) && Step(c, s, t, s') && Shape(c, s') && u < |s'.pcs| && FailShown(c, s, u) && c.calls[u].Fail?
    ensures FailShown(c, s', u)
  {
    assert ValidCall(c.calls[u], |c.initial|) && ValidCall(c.calls[t], |c.initial|);
    ValueFallsOnlyOnFailure(c, s, t, s', c.calls[u].sem);
    if u != t { StepEffect(c, s, t, s'); }
  }

  lemma {:induction false} RunShows(c: Config, run: seq<State>)
    requires IsRun(c, run)
    ensures Shown(c, run[|run| - 1])
  {
    var n := |run| - 1;
    if n > 0 {
      PrefixIsRun(c, run, n);
      RunShows(c, run[..n]);
      assert StepAt(c, run, n);
      var t :| Step(c, run[n - 1], t, run[n]);
      StepShows(c, run[n - 1], t, run[n]);
    }
  }

  /** In every run: whatever a call has signalled, its semaphore has reached, so every waiter for
      that payload is satisfied; a failure that was logged is kept with its own code; and a call of
      `fail` that returned leaves the semaphore failed. */
  lemma SignalsAreShown(c: Config, run: seq<State>, t: nat, p: nat)
    requires IsRun(c, run)
    ensures var s := run[|run| - 1];
            && (p < |s.log| ==> Shape(c, s) && EventShown(c, s, s.log[p]))
            && (t < |s.pcs| && t < |c.calls| && c.calls[t].Fail? && s.pcs[t].Done? ==>
                  c.calls[t].sem < |s.sems| && s.sems[c.calls[t].sem].failure != 0)
  {
    RunShows(c, run);
    if t < |run[|run| - 1].pcs| { assert FailShown(c, run[|run| - 1], t); }
  }
}
