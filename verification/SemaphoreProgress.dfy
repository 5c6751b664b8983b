/** Every run ends: each step of a thread brings some call nearer to its return, and a run that
    cannot go on has no thread left but returned calls and sleepers whose condition is false. */
module SemaphoreProgress {
  import opened Semaphores
  import opened SemaphoreSafety
  import opened SignalDelivery

  // ----- a measure for runs -----

  /** The threads that have not returned; each of them posts at most once more. */
  function Unreturned(pcs: seq<Pc>): nat {
    if pcs == [] then 0 else Unreturned(pcs[..|pcs| - 1]) + if pcs[|pcs| - 1].Done? then 0 else 1
  }

  /** How often a waiter can still go back to the scan. */
  function Rounds(pc: Pc, epoch: nat, posts: nat): nat {
    match pc
    case Start => posts + 1
    case Prepare => posts + 1
    case Scan(token, _) => if token == epoch then posts else posts + 1
    case Asleep(token, _) => if token == epoch then posts else posts + 1
    case _ => 0
  }

  /** The steps that a thread takes at most after its waiting. */
  function Rest(call: Call, pc: Pc): nat {
    var n := |Signals(call)|;
    match pc
    case Result(i, _, _, _) => if i <= |Waits(call)| then n + 5 + (|Waits(call)| - i) else n + 5
    case Apply => n + 4
    case Running => n + 3
    case Update(i) => if i <= n then 2 + (n - i) else 2
    case Post(_) => 1
    case Done(_) => 0
    case _ => n + 6 + |Waits(call)|
  }

  /** The place within one round of waiting. */
  function Place(call: Call, pc: Pc): nat {
    match pc
    case Start => 1
    case Scan(_, i) => if i <= |Waits(call)| then 2 + (|Waits(call)| - i) else 2
    case Asleep(_, _) => 1
    case _ => 0
  }

  /** The steps that a thread takes at most, if `posts` threads can still post. */
  function Left(call: Call, pc: Pc, epoch: nat, posts: nat): nat {
    Rest(call, pc) + Rounds(pc, epoch, posts) * (|Waits(call)| + 3) + Place(call, pc)
  }

  function Measure(calls: seq<Call>, pcs: seq<Pc>, epoch: nat, posts: nat): nat
    requires |calls| == |pcs|
  {
    if pcs == [] then 0
    else
      var n := |pcs| - 1;
      Measure(calls[..n], pcs[..n], epoch, posts) + Left(calls[n], pcs[n], epoch, posts)
  }

  function StepsLeft(c: Config, s: State): nat
    requires Shape(c, s)
  {
    Measure(c.calls, s.pcs, s.epoch, Unreturned(s.pcs))
  }

  lemma {:induction false} UnreturnedUpdate(pcs: seq<Pc>, t: nat, pc: Pc)
    requires t < |pcs|
    ensures Unreturned(pcs[t := pc]) + (if pcs[t].Done? then 0 else 1) == Unreturned(pcs) + if pc.Done? then 0 else 1
  {
    var n := |pcs| - 1;
    if t < n {
      UnreturnedUpdate(pcs[..n], t, pc);
      assert pcs[t := pc][..n] == pcs[..n][t := pc];
    } else {
      assert pcs[t := pc][..n] == pcs[..n];
    }
  }

  lemma MulMonotone(a: nat, b: nat, k: nat)
    requires a <= b
    ensures a * k <= b * k
    ensures a < b ==> a * k + k <= b * k
  {
    if a < b {
      assert b * k == a * k + (b - a) * k;
      assert (b - a) * k == k + (b - a - 1) * k;
    }
  }

  /** A thread that does not move has no more steps left than before. */
  lemma OtherLeft(call: Call, pc: Pc, epoch: nat, posts: nat, epoch': nat, posts': nat)
    requires posts' <= posts && (epoch' == epoch || posts' < posts)
    ensures Left(call, pc, epoch', posts') <= Left(call, pc, epoch, posts)
  {
    MulMonotone(Rounds(pc, epoch', posts'), Rounds(pc, epoch, posts), |Waits(call)| + 3);
  }

  /** A thread that moves has fewer. */
  lemma OwnLeft(c: Config, s: State, t: nat, s': State, posts: nat, posts': nat)
    requires Shape(c, s) && Step(c, s, t, s') && Shape(c, s') && posts' <= posts
    ensures Left(c.calls[t], s'.pcs[t], s'.epoch, posts') < Left(c.calls[t], s.pcs[t], s.epoch, posts)
  {
    var call := c.calls[t];
    assert PcOk(call, s.pcs[t], s.epoch) && PcOk(call, s'.pcs[t], s'.epoch);
    var r, r' := Rounds(s.pcs[t], s.epoch, posts), Rounds(s'.pcs[t], s'.epoch, posts');
    OwnPlace(c, s, t, s', posts, posts');
    MulMonotone(r', r, |Waits(call)| + 3);
  }

  /** The three parts go down in lexical order, and the later ones are bounded. */
  lemma OwnPlace(c: Config, s: State, t: nat, s': State, posts: nat, posts': nat)
    requires Shape(c, s) && Step(c, s, t, s') && Shape(c, s') && posts' <= posts
    ensures var call, pc, pc' := c.calls[t], s.pcs[t], s'.pcs[t];
            var r, r' := Rounds(pc, s.epoch, posts), Rounds(pc', s'.epoch, posts');
            && r' <= r && Rest(call, pc') <= Rest(call, pc) && Place(call, pc') <= |Waits(call)| + 2
            && ((Rest(call, pc') < Rest(call, pc) && Place(call, pc') == 0) || r' < r || Place(call, pc') < Place(call, pc))
  {
    assert PcOk(c.calls[t], s.pcs[t], s.epoch) && PcOk(c.calls[t], s'.pcs[t], s'.epoch);
  }

  lemma {:induction false} MeasureFalls(calls: seq<Call>, pcs: seq<Pc>, pcs': seq<Pc>, t: nat, epoch: nat, posts: nat, epoch': nat, posts': nat)
    requires |calls| == |pcs| == |pcs'| && posts' <= posts && (epoch' == epoch || posts' < posts)
    requires forall u :: 0 <= u < |pcs| && u != t ==> pcs'[u] == pcs[u]
    requires t < |pcs| ==> Left(calls[t], pcs'[t], epoch', posts') < Left(calls[t], pcs[t], epoch, posts)
    ensures Measure(calls, pcs', epoch', posts') <= Measure(calls, pcs, epoch, posts)
    ensures t < |pcs| ==> Measure(calls, pcs', epoch', posts') < Measure(calls, pcs, epoch, posts)
    decreases |pcs|
  {
    if pcs != [] {
      var n := |pcs| - 1;
      MeasureFalls(calls[..n], pcs[..n], pcs'[..n], t, epoch, posts, epoch', posts');
      if n != t { OtherLeft(calls[n], pcs[n], epoch, posts, epoch', posts'); }
    }
  }

  /** Every step brings the run nearer to its end. */
  lemma StepProgresses(c: Config, s: State, t: nat, s': State)
    requires Shape(c, s) && Step(c, s, t, s')
    ensures Shape(c, s') && StepsLeft(c, s') < StepsLeft(c, s)
  {
    StepShape(c, s, t, s');
    StepEffect(c, s, t, s');
    assert s'.pcs == s.pcs[t := s'.pcs[t]];
    UnreturnedUpdate(s.pcs, t, s'.pcs[t]);
    StepTouchesOne(c, s, t, s');
    var posts, posts' := Unreturned(s.pcs), Unreturned(s'.pcs);
    OwnLeft(c, s, t, s', posts, posts');
    MeasureFalls(c.calls, s.pcs, s'.pcs, t, s.epoch, posts, s'.epoch, posts');
  }

  /** No run goes on for ever: the number of its steps is bounded by the calls alone. */
  lemma {:induction false} RunsEnd(c: Config, run: seq<State>)
    requires IsRun(c, run)
    ensures Shape(c, Init(c)) && |run| <= StepsLeft(c, Init(c)) + 1
  {
    RunShape(c, run, 0);
    RunMeasure(c, run, |run| - 1);
  }

  lemma {:induction false} RunMeasure(c: Config, run: seq<State>, i: nat)
    requires IsRun(c, run) && i < |run|
    ensures Shape(c, run[0]) && Shape(c, run[i]) && StepsLeft(c, run[i]) + i <= StepsLeft(c, run[0])
  {
    RunShape(c, run, 0);
    if i > 0 {
      RunMeasure(c, run, i - 1);
      assert StepAt(c, run, i);
      var t :| Step(c, run[i - 1], t, run[i]);
      StepProgresses(c, run[i - 1], t, run[i]);
    }
  }

  // ----- where runs end -----

  /** Only a returned call and a sleeper on the current epoch cannot move. */
  lemma CanMove(c: Config, s: State, t: nat) returns (s': State)
    requires Valid(c, s, t) && !s.pcs[t].Done? && !(s.pcs[t].Asleep? && s.pcs[t].token == s.epoch)
    ensures Step(c, s, t, s')
  {
    var call := c.calls[t];
    assert PcOk(call, s.pcs[t], s.epoch) && ValidCall(call, |c.initial|);
    match s.pcs[t] {
      case Start => s' := StartMove(c, s, t);
      case Prepare => s' := Goto(s, t, Scan(s.epoch, 0));
      case Scan(token, i) =>
        var reached := i < |Waits(call)| && WaitReached(c, s, t, i);
        s' := Goto(s, t,
                   if WaitMode(call) == Any
                   then (if i == |Waits(call)| then Asleep(token, 0) else if reached then FIRST_RESULT else Scan(token, i + 1))
                   else if i == |Waits(call)| then FIRST_RESULT else if reached then Scan(token, i + 1) else Asleep(token, i));
      case Asleep(_, _) => s' := Goto(s, t, Prepare);
      case Result(i, _, _, _) =>
        s' := Goto(s, t, if i == |Waits(call)| then AfterWait(call, ResultStatus(WaitMode(call), s.pcs[t]))
                         else ResultStep(s.pcs[t], SemAt(c, s, t, i), Waits(call)[i].payload));
      case Apply => s' := Goto(s, t, Running).(log := s.log + [Began(t)]);
      case Running => s' := Goto(s, t, Done(CommandFailed));
      case Update(i) => s' := UpdateMove(c, s, t, i);
      case Post(status) => s' := Goto(s, t, Done(status)).(epoch := s.epoch + 1);
      case Done(_) => s' := s;
    }
  }

  lemma StartMove(c: Config, s: State, t: nat) returns (s': State)
    requires Valid(c, s, t) && s.pcs[t].Start?
    ensures Step(c, s, t, s')
  {
    var call := c.calls[t];
    assert ValidCall(call, |c.initial|);
    match call {
      case Fail(k, code) =>
        s' := if s.sems[k].failure != 0 then Goto(s, t, Done(Ok))
              else Goto(s, t, Post(Ok)).(sems := s.sems[k := Sem(c.failureValue, code)], log := s.log + [Failed(t, k)]);
      case MultiSignal(points) => s' := Goto(s, t, if |points| == 0 then Done(Ok) else Update(0));
      case _ =>
        var waits, poll := Waits(call), WaitTimeout(call) == Immediate;
        s' := Goto(s, t,
                   if |waits| == 0 then AfterWait(call, Ok)
                   else if |waits| > 1 then (if poll then FIRST_RESULT else Prepare)
                   else if SemAt(c, s, t, 0).failure != 0 then AfterWait(call, Aborted)
                   else if SemAt(c, s, t, 0).value >= waits[0].payload then AfterWait(call, Ok)
                   else if poll then AfterWait(call, DeadlineExceeded) else Prepare);
    }
  }

  lemma UpdateMove(c: Config, s: State, t: nat, i: nat) returns (s': State)
    requires Valid(c, s, t) && s.pcs[t] == Update(i)
    ensures Step(c, s, t, s')
  {
    assert PcOk(c.calls[t], s.pcs[t], s.epoch) && ValidCall(c.calls[t], |c.initial|);
    var points := Signals(c.calls[t]);
    var k, v := points[i].sem, points[i].payload;
    s' := if v <= s.sems[k].value then Goto(s, t, if |points| == 1 then Done(OutOfRange) else Post(OutOfRange))
          else Goto(s, t, if i + 1 < |points| then Update(i + 1) else Post(Ok))
               .(sems := s.sems[k := SignalUnsafe(s.sems[k], v)], log := s.log + [Signaled(t, k, v)]);
  }

  /** No thread can take a step. */
  ghost predicate Final(c: Config, s: State) {
    forall s' :: !Steps(c, s, s')
  }

  /** A run that cannot go on has come to rest: every call has returned, but for waiters that are
      asleep on the current epoch, and the condition of each of those is false. */
  lemma StuckRunsAreDone(c: Config, run: seq<State>, t: nat)
    requires IsRun(c, run) && Final(c, run[|run| - 1])
    ensures var s := run[|run| - 1];
            t < |s.pcs| ==>
              s.pcs[t].Done? || (Valid(c, s, t) && s.pcs[t].Asleep? && s.pcs[t].token == s.epoch && !Condition(c, s, t))
  {
    var s := run[|run| - 1];
    RunShape(c, run, |run| - 1);
    if t < |s.pcs| {
      AtRest(c, s, t);
      NoLostWakeup(c, run, t);
      if Pending(s) {
        var u :| 0 <= u < |s.pcs| && PendingPc(s.pcs[u]);
        AtRest(c, s, u);
      }
    }
  }

  lemma AtRest(c: Config, s: State, t: nat)
    requires Valid(c, s, t) && Final(c, s)
    ensures s.pcs[t].Done? || (s.pcs[t].Asleep? && s.pcs[t].token == s.epoch)
  {
    if !s.pcs[t].Done? && !(s.pcs[t].Asleep? && s.pcs[t].token == s.epoch) {
      var s' := CanMove(c, s, t);
      assert Steps(c, s, s');
    }
  }
}
