/** Queue submissions over whole runs: commands begin only after every awaited payload
    was reached, values appear only after the commands that produce them finished, and
    a timeline signalled in dependency order never runs a dependent first. */
module SubmissionOrder {
  import opened Semaphores
  import opened SemaphoreSafety

  /** The payload was there from the start or was signalled by an event of `log`; a
      failure does not count. */
  ghost predicate Supplied(c: Config, log: seq<Event>, p: Point) {
    || (p.sem < |c.initial| && c.initial[p.sem] >= p.payload)
    || exists q :: 0 <= q < |log| && log[q].Signaled? && log[q].sem == p.sem && log[q].value >= p.payload
  }

  ghost predicate WaitSupplied(c: Config, log: seq<Event>, call: Call, upTo: nat)
    requires upTo <= |Waits(call)|
  {
    if WaitMode(call) == All
    then forall k :: 0 <= k < upTo ==> Supplied(c, log, Waits(call)[k])
    else Waits(call) == [] || exists k :: 0 <= k < upTo && Supplied(c, log, Waits(call)[k])
  }

  lemma WaitSuppliedGrows(c: Config, log: seq<Event>, log': seq<Event>, call: Call, n: nat)
    requires n <= |Waits(call)| && WaitSupplied(c, log, call, n) && log <= log'
    ensures WaitSupplied(c, log', call, n)
  {
  }

  /** A value shown by a semaphore that has not failed is its initial value or was put
      there by a signal. */
  ghost predicate ValueLogged(c: Config, s: State, k: nat)
    requires Shape(c, s) && k < |s.sems|
  {
    s.sems[k].failure == 0 ==>
      s.sems[k].value == c.initial[k] || exists t :: Signaled(t, k, s.sems[k].value) in s.log
  }

  /** What the program counter of a thread says about the log. */
  ghost predicate ThreadLogged(c: Config, s: State, t: nat)
    requires Valid(c, s, t)
  {
    var call, n := c.calls[t], |Waits(c.calls[t])|;
    match s.pcs[t]
    case Result(i, anySignaled, allSignaled, anyFailed) =>
      ResultStatus(WaitMode(call), s.pcs[t]) == Ok ==> WaitSupplied(c, s.log, call, i)
    case Apply => WaitSupplied(c, s.log, call, n)
    case Running => Began(t) in s.log && WaitSupplied(c, s.log, call, n)
    case Update(_) => call.Execute? ==> Finished(t) in s.log && WaitSupplied(c, s.log, call, n)
    case Post(_) => call.Execute? ==> WaitSupplied(c, s.log, call, n)
    case Done(status) => status == Ok ==> WaitSupplied(c, s.log, call, n)
    case _ => true
  }

  /** Each event follows the events that must precede it. */
  ghost predicate EventOk(c: Config, before: seq<Event>, e: Event) {
    e.thread < |c.calls| &&
    var call := c.calls[e.thread];
    match e
    case Began(_) => call.Execute? && WaitSupplied(c, before, call, |Waits(call)|)
    case Finished(t) => call.Execute? && Began(t) in before
    case Signaled(t, k, v) => Point(k, v) in Signals(call) && (call.Execute? ==> Finished(t) in before)
    case Failed(_, k) => call.Fail? && call.sem == k
  }

  ghost predicate LogOk(c: Config, log: seq<Event>) {
    forall p :: 0 <= p < |log| ==> EventOk(c, log[..p], log[p])
  }

  ghost predicate OrderInv(c: Config, s: State) {
    && Shape(c, s)
    && LogOk(c, s.log)
    && (forall k :: 0 <= k < |s.sems| ==> ValueLogged(c, s, k))
    && (forall t :: 0 <= t < |s.pcs| ==> ThreadLogged(c, s, t))
  }

  lemma StepKeepsLogOk(c: Config, s: State, t: nat, s': State)
    requires OrderInv(c, s) && Step(c, s, t, s')
    ensures LogOk(c, s'.log)
  {
    assert ThreadLogged(c, s, t);
    assert |s'.log| <= |s.log| + 1 && s.log <= s'.log;
    forall p | 0 <= p < |s'.log| ensures EventOk(c, s'.log[..p], s'.log[p]) {
      if p < |s.log| {
        assert s'.log[..p] == s.log[..p];
        assert EventOk(c, s.log[..p], s.log[p]);
      } else {
        assert s'.log[..p] == s.log;
        if s.pcs[t].Update? {
          assert Signals(c.calls[t])[s.pcs[t].i] in Signals(c.calls[t]);
        }
      }
    }
  }

  lemma ValueStaysLogged(c: Config, s: State, s': State, k: nat)
    requires Shape(c, s) && Shape(c, s') && k < |s.sems| && ValueLogged(c, s, k) && s'.sems[k] == s.sems[k] && s.log <= s'.log
    ensures ValueLogged(c, s', k)
  {
    if s.sems[k].failure == 0 && s.sems[k].value != c.initial[k] {
      var u :| Signaled(u, k, s.sems[k].value) in s.log;
      assert Signaled(u, k, s'.sems[k].value) in s'.log;
    }
  }

  lemma StepKeepsValueLogged(c: Config, s: State, t: nat, s': State, k: nat)
    requires OrderInv(c, s) && Step(c, s, t, s') && Shape(c, s') && k < |s.sems|
    ensures ValueLogged(c, s', k)
  {
    assert ValueLogged(c, s, k);
    StepEffect(c, s, t, s');
    if s'.sems[k] == s.sems[k] {
      ValueStaysLogged(c, s, s', k);
    } else if s.pcs[t].Update? {
      assert s'.log[|s.log|] == Signaled(t, k, s'.sems[k].value);
    }
  }

  lemma StepKeepsOthers(c: Config, s: State, t: nat, s': State, u: nat)
    requires OrderInv(c, s) && Step(c, s, t, s') && Shape(c, s') && u < |s.pcs| && u != t
    ensures u < |s'.pcs| && ThreadLogged(c, s', u)
  {
    assert ThreadLogged(c, s, u);
    StepEffect(c, s, t, s');
    var call := c.calls[u];
    var n := if s.pcs[u].Result? then s.pcs[u].i else |Waits(call)|;
    if WaitSupplied(c, s.log, call, n) {
      WaitSuppliedGrows(c, s.log, s'.log, call, n);
    }
  }

  /** A semaphore seen unfailed at or above a payload supplies that payload. */
  lemma SeenSupplied(c: Config, s: State, p: Point)
    requires Shape(c, s) && p.sem < |s.sems| && ValueLogged(c, s, p.sem)
    requires s.sems[p.sem].failure == 0 && s.sems[p.sem].value >= p.payload
    ensures Supplied(c, s.log, p)
  {
  }

  lemma WaitSuppliedExtends(c: Config, log: seq<Event>, call: Call, i: nat)
    requires i < |Waits(call)|
    ensures WaitSupplied(c, log, call, i) && (WaitMode(call) == Any || Supplied(c, log, Waits(call)[i])) ==>
              WaitSupplied(c, log, call, i + 1)
    ensures WaitMode(call) == Any && Supplied(c, log, Waits(call)[i]) ==> WaitSupplied(c, log, call, i + 1)
  {
  }

  lemma ResultStepSupplied(c: Config, s: State, t: nat, s': State)
    requires OrderInv(c, s) && Step(c, s, t, s') && Shape(c, s')
    requires s.pcs[t].Result? && s.pcs[t].i < |Waits(c.calls[t])|
    ensures ThreadLogged(c, s', t)
  {
    assert ThreadLogged(c, s, t);
    var call, i := c.calls[t], s.pcs[t].i;
    var p := Waits(call)[i];
    assert ValidCall(call, |c.initial|);
    assert ValueLogged(c, s, p.sem);
    assert s'.pcs[t].Result? && s'.pcs[t].i == i + 1 && s'.log == s.log;
    WaitSuppliedExtends(c, s.log, call, i);
    if s.sems[p.sem].failure == 0 && s.sems[p.sem].value >= p.payload {
      SeenSupplied(c, s, p);
    }
  }

  lemma StartStepSupplied(c: Config, s: State, t: nat, s': State)
    requires OrderInv(c, s) && Step(c, s, t, s') && Shape(c, s')
    requires s.pcs[t].Start?
    ensures ThreadLogged(c, s', t)
  {
    var call := c.calls[t];
    if |Waits(call)| == 1 {
      var p := Waits(call)[0];
      assert ValueLogged(c, s, p.sem);
      if s.sems[p.sem].failure == 0 && s.sems[p.sem].value >= p.payload {
        SeenSupplied(c, s, p);
        assert WaitSupplied(c, s.log, call, 1);
      }
    }
  }

  lemma StepKeepsOwn(c: Config, s: State, t: nat, s': State)
    requires OrderInv(c, s) && Step(c, s, t, s') && Shape(c, s')
    ensures ThreadLogged(c, s', t)
  {
    assert ThreadLogged(c, s, t);
    assert PcOk(c.calls[t], s.pcs[t], s.epoch);
    if s.pcs[t].Start? {
      StartStepSupplied(c, s, t, s');
    } else if s.pcs[t].Result? && s.pcs[t].i < |Waits(c.calls[t])| {
      ResultStepSupplied(c, s, t, s');
    } else {
      StepEffect(c, s, t, s');
      if WaitSupplied(c, s.log, c.calls[t], |Waits(c.calls[t])|) {
        WaitSuppliedGrows(c, s.log, s'.log, c.calls[t], |Waits(c.calls[t])|);
      }
    }
  }

  lemma StepKeepsOrderInv(c: Config, s: State, t: nat, s': State)
    requires OrderInv(c, s) && Step(c, s, t, s')
    ensures OrderInv(c, s')
  {
    StepShape(c, s, t, s');
    StepKeepsLogOk(c, s, t, s');
    forall k | 0 <= k < |s'.sems| ensures ValueLogged(c, s', k) {
      StepKeepsValueLogged(c, s, t, s', k);
    }
    forall u | 0 <= u < |s'.pcs| ensures ThreadLogged(c, s', u) {
      if u == t { StepKeepsOwn(c, s, t, s'); } else { StepKeepsOthers(c, s, t, s', u); }
    }
  }

  lemma {:induction false} RunKeepsOrderInv(c: Config, run: seq<State>)
    requires IsRun(c, run)
    ensures OrderInv(c, run[|run| - 1])
  {
    var n := |run| - 1;
    if n > 0 {
      PrefixIsRun(c, run, n);
      RunKeepsOrderInv(c, run[..n]);
      assert StepAt(c, run, n);
      var t :| Step(c, run[n - 1], t, run[n]);
      StepKeepsOrderInv(c, run[n - 1], t, run[n]);
    }
  }

  // ----- what the invariant says of whole runs -----

  /** A list wait that returned OK saw every payload (or one, for ANY) supplied by
      signals, and the deferred commands of a submission began only after that. */
  lemma CommandsWaitForPayloads(c: Config, run: seq<State>, p: nat, k: nat)
    requires IsRun(c, run)
    ensures var log := run[|run| - 1].log;
            p < |log| && log[p].Began? ==>
              && log[p].thread < |c.calls| && c.calls[log[p].thread].Execute?
              && (k < |Waits(c.calls[log[p].thread])| ==>
                    Supplied(c, log[..p], Waits(c.calls[log[p].thread])[k]))
  {
    RunKeepsOrderInv(c, run);
    var log := run[|run| - 1].log;
    if p < |log| && log[p].Began? {
      assert EventOk(c, log[..p], log[p]);
    }
  }

  lemma OkWaitWasSupplied(c: Config, run: seq<State>, t: nat)
    requires IsRun(c, run)
    ensures var s := run[|run| - 1];
            t < |s.pcs| && t < |c.calls| && s.pcs[t] == Done(Ok) ==>
              WaitSupplied(c, s.log, c.calls[t], |Waits(c.calls[t])|)
  {
    RunKeepsOrderInv(c, run);
    if t < |run[|run| - 1].pcs| {
      assert ThreadLogged(c, run[|run| - 1], t);
    }
  }

  /** Every non-initial value that an unfailed semaphore shows was signalled by a call that
      lists it, and by a submission only after its commands finished. */
  lemma ValuesFollowTheirCommands(c: Config, run: seq<State>, k: nat)
    requires IsRun(c, run) && k < |c.initial|
    ensures var s := run[|run| - 1];
            && |s.sems| == |c.initial|
            && (s.sems[k].failure == 0 && s.sems[k].value != c.initial[k] ==>
                  exists p, t :: 0 <= p < |s.log| && 0 <= t < |c.calls| &&
                    s.log[p] == Signaled(t, k, s.sems[k].value) &&
                    Point(k, s.sems[k].value) in Signals(c.calls[t]) &&
                    (c.calls[t].Execute? ==> Finished(t) in s.log[..p]))
  {
    RunKeepsOrderInv(c, run);
    var s := run[|run| - 1];
    assert ValueLogged(c, s, k);
    if s.sems[k].failure == 0 && s.sems[k].value != c.initial[k] {
      var p := LoggedAt(c, s, k);
      assert EventOk(c, s.log[..p], s.log[p]);
    }
  }

  lemma LoggedAt(c: Config, s: State, k: nat) returns (p: nat)
    requires Shape(c, s) && k < |s.sems| && ValueLogged(c, s, k) && s.sems[k].failure == 0 && s.sems[k].value != c.initial[k]
    ensures p < |s.log| && s.log[p].Signaled? && s.log[p].sem == k && s.log[p].value == s.sems[k].value
  {
    var t :| Signaled(t, k, s.sems[k].value) in s.log;
    p :| 0 <= p < |s.log| && s.log[p] == Signaled(t, k, s.sems[k].value);
  }

  // ----- dependency order -----

  /** A timeline signalled in dependency order: whoever may carry `sem` past the payload of
      `producer` is `producer` itself or a submission that waits for at least that payload. */
  ghost predicate DependencyOrdered(c: Config, producer: nat, p: Point) {
    forall t, i :: 0 <= t < |c.calls| && 0 <= i < |Signals(c.calls[t])| && t != producer &&
                   Signals(c.calls[t])[i].sem == p.sem && Signals(c.calls[t])[i].payload >= p.payload ==>
      c.calls[t].Execute? && WaitsPast(c.calls[t], p)
  }

  ghost predicate WaitsPast(call: Call, p: Point) {
    exists k :: 0 <= k < |Waits(call)| && Waits(call)[k].sem == p.sem && Waits(call)[k].payload >= p.payload
  }

  /** Whatever supplies the payload of `producer` before position `n` of the log comes after
      the commands of `producer` finished. */
  lemma {:induction false} ProducerFinishedFirst(c: Config, log: seq<Event>, n: nat, producer: nat, p: Point)
    requires LogOk(c, log) && n <= |log| && producer < |c.calls| && c.calls[producer].Execute?
    requires p.sem < |c.initial| && c.initial[p.sem] < p.payload
    requires DependencyOrdered(c, producer, p)
    requires Supplied(c, log[..n], p)
    ensures Finished(producer) in log[..n]
    decreases n
  {
    var q :| 0 <= q < n && log[..n][q].Signaled? && log[..n][q].sem == p.sem && log[..n][q].value >= p.payload;
    var e := log[q];
    assert EventOk(c, log[..q], e);
    if e.thread == producer {
      PrefixMember(log, q, n, Finished(producer));
    } else {
      var i :| 0 <= i < |Signals(c.calls[e.thread])| && Signals(c.calls[e.thread])[i] == Point(e.sem, e.value);
      assert WaitsPast(c.calls[e.thread], p);
      var b := BeganBefore(c, log, q, e.thread, p);
      ProducerFinishedFirst(c, log, b, producer, p);
      PrefixMember(log, b, n, Finished(producer));
    }
  }

  /** A submission that waits past `p` and finished began after `p` was supplied. */
  lemma BeganBefore(c: Config, log: seq<Event>, q: nat, t: nat, p: Point) returns (b: nat)
    requires LogOk(c, log) && q <= |log| && t < |c.calls| && WaitsPast(c.calls[t], p) && Finished(t) in log[..q]
    ensures b < q && Supplied(c, log[..b], p)
  {
    var f :| 0 <= f < q && log[..q][f] == Finished(t);
    assert EventOk(c, log[..f], log[f]);
    b :| 0 <= b < f && log[..f][b] == Began(t);
    assert EventOk(c, log[..b], log[b]);
    var k :| 0 <= k < |Waits(c.calls[t])| && Waits(c.calls[t])[k].sem == p.sem && Waits(c.calls[t])[k].payload >= p.payload;
    assert Supplied(c, log[..b], Waits(c.calls[t])[k]);
  }

  lemma PrefixMember(log: seq<Event>, a: nat, b: nat, e: Event)
    requires a <= b <= |log| && e in log[..a]
    ensures e in log[..b]
  {
  }

  /** In no run does a dependent submission begin before the submission that produces its
      awaited payload has finished. */
  lemma DependentNeverFirst(c: Config, run: seq<State>, b: nat, t: nat, k: nat, producer: nat)
    requires IsRun(c, run)
    requires t < |c.calls| && k < |Waits(c.calls[t])|
    requires producer < |c.calls| && c.calls[producer].Execute?
    requires Waits(c.calls[t])[k].sem < |c.initial|
    requires c.initial[Waits(c.calls[t])[k].sem] < Waits(c.calls[t])[k].payload
    requires DependencyOrdered(c, producer, Waits(c.calls[t])[k])
    ensures var log := run[|run| - 1].log;
            b < |log| && log[b] == Began(t) ==> Finished(producer) in log[..b]
  {
    RunKeepsOrderInv(c, run);
    var log := run[|run| - 1].log;
    if b < |log| && log[b] == Began(t) {
      CommandsWaitForPayloads(c, run, b, k);
      ProducerFinishedFirst(c, log, b, producer, Waits(c.calls[t])[k]);
    }
  }
}
