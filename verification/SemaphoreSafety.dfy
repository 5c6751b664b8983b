/** Safety of the timeline semaphores over every run: no wake-up is lost, values and
    failures only move forward, and submissions run in dependency order. */
module SemaphoreSafety {
  import opened Semaphores

  // ----- no lost wake-up -----

  /** The thread changed a value and has not posted since. */
  predicate PendingPc(pc: Pc) {
    pc.Post? || (pc.Update? && pc.i > 0)
  }

  ghost predicate Pending(s: State) {
    exists u :: 0 <= u < |s.pcs| && PendingPc(s.pcs[u])
  }

  /** The condition of an await, evaluated in one instant. */
  predicate Condition(c: Config, s: State, t: nat)
    requires Valid(c, s, t)
  {
    if WaitMode(c.calls[t]) == Any
    then exists k :: 0 <= k < |Waits(c.calls[t])| && WaitReached(c, s, t, k)
    else forall k :: 0 <= k < |Waits(c.calls[t])| ==> WaitReached(c, s, t, k)
  }

  /** What a waiter has seen to be false is still false. */
  predicate SeenFalse(c: Config, s: State, t: nat)
    requires Valid(c, s, t)
  {
    match s.pcs[t]
    case Scan(token, i) =>
      WaitMode(c.calls[t]) == Any && token == s.epoch ==>
        forall k :: 0 <= k < i ==> !WaitReached(c, s, t, k)
    case Asleep(token, at) =>
      token == s.epoch ==>
        if WaitMode(c.calls[t]) == Any
        then forall k :: 0 <= k < |Waits(c.calls[t])| ==> !WaitReached(c, s, t, k)
        else !WaitReached(c, s, t, at)
    case _ => true
  }

  ghost predicate WakeInv(c: Config, s: State) {
    && Shape(c, s)
    && (!Pending(s) ==> forall t :: 0 <= t < |s.pcs| ==> SeenFalse(c, s, t))
  }

  /** With no update outstanding before and after, a step of `t` that leaves the epoch
      alone changed no semaphore. */
  lemma QuietStep(c: Config, s: State, t: nat, s': State)
    requires Shape(c, s) && Step(c, s, t, s')
    requires !Pending(s') && s'.epoch == s.epoch
    ensures s'.sems == s.sems && !Pending(s)
  {
    StepEffect(c, s, t, s');
    assert !PendingPc(s'.pcs[t]);
    forall u | 0 <= u < |s.pcs| ensures !PendingPc(s.pcs[u]) {
      assert !PendingPc(s'.pcs[u]);
    }
  }

  lemma OtherSeenFalse(c: Config, s: State, t: nat, s': State, u: nat)
    requires Shape(c, s) && Shape(c, s') && Step(c, s, t, s') && u < |s.pcs| && u != t
    requires s'.epoch == s.epoch ==> s'.sems == s.sems && SeenFalse(c, s, u)
    ensures u < |s'.pcs| && SeenFalse(c, s', u)
  {
    StepEffect(c, s, t, s');
    assert PcOk(c.calls[u], s.pcs[u], s.epoch);
    if s'.epoch == s.epoch {
      assert forall k :: 0 <= k < |Waits(c.calls[u])| ==>
               WaitReached(c, s', u, k) == WaitReached(c, s, u, k);
    }
  }

  lemma OwnSeenFalse(c: Config, s: State, t: nat, s': State)
    requires Shape(c, s) && Shape(c, s') && Step(c, s, t, s')
    requires s'.epoch == s.epoch ==> s'.sems == s.sems && SeenFalse(c, s, t)
    ensures SeenFalse(c, s', t)
  {
    assert PcOk(c.calls[t], s.pcs[t], s.epoch);
    if s.pcs[t].Scan? {
      assert forall k :: 0 <= k < |Waits(c.calls[t])| ==>
               WaitReached(c, s', t, k) == WaitReached(c, s, t, k);
    }
  }

  lemma StepKeepsSeenFalse(c: Config, s: State, t: nat, s': State)
    requires WakeInv(c, s) && Step(c, s, t, s')
    ensures WakeInv(c, s')
  {
    StepShape(c, s, t, s');
    if !Pending(s') {
      if s'.epoch == s.epoch { QuietStep(c, s, t, s'); }
      forall u | 0 <= u < |s'.pcs| ensures SeenFalse(c, s', u) {
        if u == t { OwnSeenFalse(c, s, t, s'); } else { OtherSeenFalse(c, s, t, s', u); }
      }
    }
  }

  lemma PrefixIsRun(c: Config, run: seq<State>, n: nat)
    requires IsRun(c, run) && 0 < n <= |run|
    ensures IsRun(c, run[..n])
  {
    forall i | 0 < i < n ensures StepAt(c, run[..n], i) {
      assert StepAt(c, run, i);
    }
  }

  lemma {:induction false} RunKeepsWakeInv(c: Config, run: seq<State>)
    requires IsRun(c, run)
    ensures WakeInv(c, run[|run| - 1])
  {
    var n := |run| - 1;
    if n > 0 {
      PrefixIsRun(c, run, n);
      RunKeepsWakeInv(c, run[..n]);
      assert StepAt(c, run, n);
      var t :| Step(c, run[n - 1], t, run[n]);
      StepKeepsSeenFalse(c, run[n - 1], t, run[n]);
    }
  }

  /** In every reachable state a waiter that sleeps on the current epoch although its
      condition holds is owed a post by some thread. */
  lemma NoLostWakeup(c: Config, run: seq<State>, t: nat)
    requires IsRun(c, run)
    ensures Valid(c, run[|run| - 1], t) ==>
              var s := run[|run| - 1];
              s.pcs[t].Asleep? && s.pcs[t].token == s.epoch && Condition(c, s, t) ==> Pending(s)
  {
    RunKeepsWakeInv(c, run);
    var s := run[|run| - 1];
    if Valid(c, s, t) && s.pcs[t].Asleep? && !Pending(s) {
      assert SeenFalse(c, s, t);
    }
  }

  /** No signal, fail or multi_signal call is between its first update and its return. */
  predicate SignalsReturned(s: State) {
    forall u :: 0 <= u < |s.pcs| ==> !s.pcs[u].Post? && !s.pcs[u].Update?
  }

  /** Once those calls have returned, a sleeper whose condition holds can leave at once. */
  lemma SleeperCanLeave(c: Config, run: seq<State>, t: nat)
    requires IsRun(c, run)
    ensures Valid(c, run[|run| - 1], t) ==>
              var s := run[|run| - 1];
              SignalsReturned(s) && s.pcs[t].Asleep? && Condition(c, s, t) ==>
                Step(c, s, t, Goto(s, t, Prepare))
  {
    NoLostWakeup(c, run, t);
  }

  // ----- values and failures only move forward -----

  /** The step that lowers a value is a first failure of a semaphore that was signalled
      past the failure sentinel, and nothing else. */
  lemma ValueFallsOnlyOnFailure(c: Config, s: State, t: nat, s': State, k: nat)
    requires Shape(c, s) && Step(c, s, t, s') && k < |s.sems|
    ensures |s'.sems| == |s.sems|
    ensures s'.sems[k].value < s.sems[k].value <==>
              s.pcs[t].Start? && c.calls[t].Fail? && c.calls[t].sem == k &&
              s.sems[k].failure == 0 && s.sems[k].value > c.failureValue
    ensures s.sems[k].failure != 0 ==> s'.sems[k].failure == s.sems[k].failure
    ensures forall payload :: Reaches(s.sems[k], payload) ==> Reaches(s'.sems[k], payload)
  {
  }

  predicate PayloadsBelow(c: Config, limit: nat) {
    && (forall k :: 0 <= k < |c.initial| ==> c.initial[k] <= limit)
    && (forall t, i :: 0 <= t < |c.calls| && 0 <= i < |Signals(c.calls[t])| ==>
          Signals(c.calls[t])[i].payload <= limit)
  }

  predicate ValuesBelow(c: Config, s: State) {
    Shape(c, s) && forall k :: 0 <= k < |s.sems| ==> s.sems[k].value <= c.failureValue
  }

  lemma {:induction false} RunValuesBelow(c: Config, run: seq<State>, i: nat)
    requires IsRun(c, run) && PayloadsBelow(c, c.failureValue) && i < |run|
    ensures ValuesBelow(c, run[i])
  {
    if i > 0 {
      RunValuesBelow(c, run, i - 1);
      assert StepAt(c, run, i);
      var t :| Step(c, run[i - 1], t, run[i]);
      StepShape(c, run[i - 1], t, run[i]);
    }
  }

  lemma StepMovesForward(c: Config, s: State, t: nat, s': State, k: nat)
    requires ValuesBelow(c, s) && Step(c, s, t, s') && k < |s.sems|
    ensures Shape(c, s') && s.log <= s'.log
    ensures s.sems[k].value <= s'.sems[k].value
    ensures s.sems[k].failure != 0 ==> s'.sems[k].failure == s.sems[k].failure
  {
    StepShape(c, s, t, s');
    StepEffect(c, s, t, s');
  }

  /** Over any run with payloads up to the failure value, a later state shows no smaller
      value, the same first failure, and every wait point that was reached. */
  lemma {:induction false} RunsMoveForward(c: Config, run: seq<State>, i: nat, j: nat, k: nat)
    requires IsRun(c, run) && PayloadsBelow(c, c.failureValue)
    requires i <= j < |run| && k < |c.initial|
    ensures Shape(c, run[i]) && Shape(c, run[j])
    ensures run[i].sems[k].value <= run[j].sems[k].value
    ensures run[i].sems[k].failure != 0 ==> run[j].sems[k].failure == run[i].sems[k].failure
    ensures run[i].log <= run[j].log
    ensures forall p :: Reaches(run[i].sems[k], p) ==> Reaches(run[j].sems[k], p)
    decreases j - i
  {
    RunValuesBelow(c, run, i);
    if i < j {
      RunsMoveForward(c, run, i, j - 1, k);
      RunValuesBelow(c, run, j - 1);
      assert StepAt(c, run, j);
      var t :| Step(c, run[j - 1], t, run[j]);
      StepMovesForward(c, run[j - 1], t, run[j], k);
    }
  }

  /** Thread 0 signals past the sentinel, then thread 1 fails the semaphore. */
  function OverrunConfig(failureValue: nat): Config {
    Config(failureValue, [0], [MultiSignal([Point(0, failureValue + 1)]), Fail(0, 1)])
  }

  function OverrunState(failureValue: nat, i: nat): State
    requires i < 4
  {
    var signal := Signaled(0, 0, failureValue + 1);
    if i == 0 then State([Sem(0, 0)], 0, [Start, Start], [])
    else if i == 1 then State([Sem(0, 0)], 0, [Update(0), Start], [])
    else if i == 2 then State([Sem(failureValue + 1, 0)], 0, [Post(Ok), Start], [signal])
    else State([Sem(failureValue, 1)], 0, [Post(Ok), Post(Ok)], [signal, Failed(1, 0)])
  }

  lemma OverrunSteps(failureValue: nat, i: nat)
    requires i < 3
    ensures Steps(OverrunConfig(failureValue), OverrunState(failureValue, i), OverrunState(failureValue, i + 1))
  {
    var c := OverrunConfig(failureValue);
    var s, s' := OverrunState(failureValue, i), OverrunState(failureValue, i + 1);
    assert ValidCall(c.calls[0], 1) && ValidCall(c.calls[1], 1);
    if i == 0 { assert Step(c, s, 0, s'); }
    else if i == 1 { assert Step(c, s, 0, s'); }
    else { assert Step(c, s, 1, s'); }
  }

  /** A payload above the failure value lets `fail` lower the value that a query shows. */
  lemma SentinelOverrun(failureValue: nat)
    ensures var run := seq(4, i requires 0 <= i < 4 => OverrunState(failureValue, i));
            IsRun(OverrunConfig(failureValue), run) && run[3].sems[0].value < run[2].sems[0].value
  {
    var c := OverrunConfig(failureValue);
    var run := seq(4, i requires 0 <= i < 4 => OverrunState(failureValue, i));
    assert ValidCall(c.calls[0], 1) && ValidCall(c.calls[1], 1);
    forall i | 0 < i < |run| ensures StepAt(c, run, i) {
      OverrunSteps(failureValue, i - 1);
    }
  }

  // ----- a wait that returns has seen what it promises -----

  /** The waits that may legally report a missed deadline: polls, and a finite wait on one semaphore. */
  predicate MayMissDeadline(call: Call) {
    call.MultiWait? && (call.timeout == Immediate || (call.timeout == Finite && |call.points| == 1))
  }

  ghost predicate ScanSound(c: Config, s: State, t: nat)
    requires Valid(c, s, t)
  {
    var call := c.calls[t];
    match s.pcs[t]
    case Scan(_, i) =>
      WaitMode(call) == All ==> forall k :: 0 <= k < i ==> WaitReached(c, s, t, k)
    case Result(i, anySignaled, allSignaled, anyFailed) =>
      MayMissDeadline(call) ||
      if WaitMode(call) == All
      then allSignaled && forall k :: 0 <= k < |Waits(call)| ==> WaitReached(c, s, t, k)
      else exists k :: 0 <= k < |Waits(call)| && WaitReached(c, s, t, k) &&
                       (k < i ==> anySignaled || anyFailed)
    case Post(status) => status != DeadlineExceeded
    case Done(status) => status == DeadlineExceeded ==> MayMissDeadline(call)
    case _ => true
  }

  ghost predicate ScanInv(c: Config, s: State) {
    Shape(c, s) && forall t :: 0 <= t < |s.pcs| ==> ScanSound(c, s, t)
  }

  lemma OtherScanSound(c: Config, s: State, t: nat, s': State, u: nat)
    requires ScanInv(c, s) && Step(c, s, t, s') && Shape(c, s') && u < |s.pcs| && u != t
    ensures u < |s'.pcs| && ScanSound(c, s', u)
  {
    StepEffect(c, s, t, s');
    assert ScanSound(c, s, u);
    assert forall k :: 0 <= k < |Waits(c.calls[u])| && WaitReached(c, s, u, k) ==> WaitReached(c, s', u, k);
    if s.pcs[u].Result? && !MayMissDeadline(c.calls[u]) && WaitMode(c.calls[u]) == Any {
      var k :| 0 <= k < |Waits(c.calls[u])| && WaitReached(c, s, u, k) &&
               (k < s.pcs[u].i ==> s.pcs[u].anySignaled || s.pcs[u].anyFailed);
      assert WaitReached(c, s', u, k);
    }
  }

  lemma OwnResultSound(c: Config, s: State, t: nat, s': State)
    requires Valid(c, s, t) && ScanSound(c, s, t) && Step(c, s, t, s') && Valid(c, s', t) && s.pcs[t].Result?
    ensures ScanSound(c, s', t)
  {
    var call, pc := c.calls[t], s.pcs[t];
    assert PcOk(call, pc, s.epoch) && s'.sems == s.sems;
    assert forall k :: 0 <= k < |Waits(call)| ==> WaitReached(c, s', t, k) == WaitReached(c, s, t, k);
    if !MayMissDeadline(call) && WaitMode(call) == Any {
      var k :| 0 <= k < |Waits(call)| && WaitReached(c, s, t, k) &&
               (k < pc.i ==> pc.anySignaled || pc.anyFailed);
      assert WaitReached(c, s', t, k);
    } else if !MayMissDeadline(call) && pc.i < |Waits(call)| {
      assert WaitReached(c, s, t, pc.i);
    }
  }

  lemma OwnScanSound(c: Config, s: State, t: nat, s': State)
    requires ScanInv(c, s) && Step(c, s, t, s') && Shape(c, s')
    ensures ScanSound(c, s', t)
  {
    assert ScanSound(c, s, t);
    var call, pc := c.calls[t], s.pcs[t];
    assert PcOk(call, pc, s.epoch);
    if pc.Result? {
      OwnResultSound(c, s, t, s');
    } else if pc.Scan? {
      assert s'.sems == s.sems;
      assert forall k :: 0 <= k < |Waits(call)| ==> WaitReached(c, s', t, k) == WaitReached(c, s, t, k);
    }
  }

  lemma StepKeepsScanInv(c: Config, s: State, t: nat, s': State)
    requires ScanInv(c, s) && Step(c, s, t, s')
    ensures ScanInv(c, s')
  {
    StepShape(c, s, t, s');
    forall u | 0 <= u < |s'.pcs| ensures ScanSound(c, s', u) {
      if u == t { OwnScanSound(c, s, t, s'); } else { OtherScanSound(c, s, t, s', u); }
    }
  }

  lemma {:induction false} RunKeepsScanInv(c: Config, run: seq<State>)
    requires IsRun(c, run)
    ensures ScanInv(c, run[|run| - 1])
  {
    var n := |run| - 1;
    if n > 0 {
      PrefixIsRun(c, run, n);
      RunKeepsScanInv(c, run[..n]);
      assert StepAt(c, run, n);
      var t :| Step(c, run[n - 1], t, run[n]);
      StepKeepsScanInv(c, run[n - 1], t, run[n]);
    }
  }

  /** Although the condition and the result are two separate scans, each taking one lock
      at a time, a wait reports a missed deadline only if it polled or could time out. */
  lemma NoSpuriousDeadline(c: Config, run: seq<State>, t: nat)
    requires IsRun(c, run)
    ensures t < |run[|run| - 1].pcs| && run[|run| - 1].pcs[t] == Done(DeadlineExceeded) ==>
              t < |c.calls| && MayMissDeadline(c.calls[t])
  {
    RunKeepsScanInv(c, run);
    if t < |run[|run| - 1].pcs| {
      assert ScanSound(c, run[|run| - 1], t);
    }
  }
}
