/** Once Stop has begun, it returns after a bounded number of steps, whatever the schedule. */
module AioTermination {
  import opened Aio
  import opened AioProtocol
  import opened AioShutdown
  import opened AioRuns

  // ---------------------------------------------------------------- measure

  function Lengths(queues: seq<seq<Item>>): nat {
    if queues == [] then 0 else |queues[0]| + Lengths(queues[1..])
  }

  /** The steps a worker still has to take with its command. */
  function StepsLeft(w: Worker): nat {
    if !w.Busy? then 0
    else
      match w.stage
      case Popped => 4
      case Ran(_) => 3
      case Reported(_) => 2
      case Counted(_, _) => 1
  }

  function Work(workers: seq<Worker>): nat {
    if workers == [] then 0 else StepsLeft(workers[0]) + Work(workers[1..])
  }

  /** The steps of Stop, and for each sentinel it has yet to push those of a queued item. */
  function StopLeft(stop: Stop, nio: nat, npio: nat): nat {
    match stop
    case Started => 5 + 6 * npio + 6 * nio
    case PushIo(k) => 4 + 6 * npio + (if k < nio then 6 * (nio - k) else 0)
    case JoinIo => 3 + 6 * npio
    case PushPio(k) => 2 + (if k < npio then 6 * (npio - k) else 0)
    case JoinPio => 1
    case Stopped => 0
  }

  /** A queued item stands for five steps: being popped and the four of ProcessRequest. */
  function Measure(s: Sys): nat {
    5 * Lengths(s.queues) + Work(s.workers) + StopLeft(s.stop, s.nio, s.npio)
  }

  lemma {:induction false} LengthsUpdate(queues: seq<seq<Item>>, q: nat, x: seq<Item>)
    requires q < |queues|
    ensures Lengths(queues[q := x]) == Lengths(queues) - |queues[q]| + |x|
  {
    if q == 0 {
      assert queues[q := x][1..] == queues[1..];
    } else {
      LengthsUpdate(queues[1..], q - 1, x);
      assert queues[q := x][1..] == queues[1..][q - 1 := x];
    }
  }

  lemma {:induction false} WorkUpdate(workers: seq<Worker>, w: nat, x: Worker)
    requires w < |workers|
    ensures Work(workers[w := x]) == Work(workers) - StepsLeft(workers[w]) + StepsLeft(x)
  {
    if w == 0 {
      assert workers[w := x][1..] == workers[1..];
    } else {
      WorkUpdate(workers[1..], w - 1, x);
      assert workers[w := x][1..] == workers[1..][w - 1 := x];
    }
  }

  // ------------------------------------------------------- every step counts

  lemma WorkShrinks(s: Sys, step: Step)
    requires Enabled(s, step) && (step.Execute? || step.Report? || step.CountUp? || step.Finish?)
    ensures Measure(Apply(s, step)) < Measure(s)
  {
    var s', w := Apply(s, step), step.w;
    WorkUpdate(s.workers, w, s'.workers[w]);
    assert s'.workers == s.workers[w := s'.workers[w]];
  }

  lemma PopShrinks(s: Sys, w: nat)
    requires Enabled(s, PopItem(w))
    ensures Measure(Apply(s, PopItem(w))) < Measure(s)
  {
    var s', q := Apply(s, PopItem(w)), QueueOf(s.nio, w);
    LengthsUpdate(s.queues, q, s.queues[q][1..]);
    WorkUpdate(s.workers, w, s'.workers[w]);
    assert s'.workers == s.workers[w := s'.workers[w]];
  }

  lemma StopPushShrinks(s: Sys)
    requires Enabled(s, StopPush)
    ensures Measure(Apply(s, StopPush)) < Measure(s)
  {
    var q := if s.stop.PushIo? && s.stop.k < s.nio then s.stop.k else s.nio;
    LengthsUpdate(s.queues, q, s.queues[q] + [Sentinel]);
  }

  /** After StopBegin nothing is submitted or pushed any more, and every step brings Stop nearer. */
  lemma StepShrinks(s: Sys, step: Step)
    requires ShutOk(s) && Enabled(s, step) && !s.stop.Started?
    ensures !Apply(s, step).stop.Started? && Measure(Apply(s, step)) < Measure(s)
  {
    match step
    case PopItem(w) => PopShrinks(s, w);
    case StopPush => StopPushShrinks(s);
    case StopJoin =>
    case PushNext(_) =>
    case Submit(_) =>
    case StopBegin =>
    case _ => WorkShrinks(s, step);
  }

  lemma {:induction false} RunShrinks(s: Sys, steps: seq<Step>, end: Sys)
    requires AllOk(s) && !s.stop.Started? && Leads(s, steps, end)
    ensures AllOk(end) && !end.stop.Started? && |steps| + Measure(end) <= Measure(s)
    decreases |steps|
  {
    if steps == [] {
    } else {
      StepShrinks(s, steps[0]);
      StepOk(s, steps[0]);
      RunShrinks(Apply(s, steps[0]), steps[1..], end);
    }
  }

  // --------------------------------------------------------------- progress

  /** A state in which Stop has begun but not returned is never stuck. */
  lemma SomeStep(s: Sys) returns (step: Step)
    requires AllOk(s) && !s.stop.Started? && !s.stop.Stopped?
    ensures Enabled(s, step)
  {
    if s.stop.JoinIo? || s.stop.JoinPio? {
      if w: nat :| w < |s.workers| && !s.workers[w].Exited? && (w < s.nio <==> s.stop.JoinIo?) {
        JoinProgress(s, w);
        step := if Enabled(s, PopItem(w)) then PopItem(w)
                else if Enabled(s, Execute(w, 0)) then Execute(w, 0)
                else if Enabled(s, Report(w)) then Report(w)
                else if Enabled(s, CountUp(w)) then CountUp(w)
                else Finish(w);
      } else {
        step := StopJoin;
      }
    } else {
      step := StopPush;
    }
  }

  lemma StoppedIsFinal(s: Sys, step: Step)
    requires ShutOk(s) && s.stop.Stopped?
    ensures !Enabled(s, step)
  {
    if (step.PopItem? || step.Execute? || step.Report? || step.CountUp? || step.Finish?) && step.w < |s.workers| {
      assert s.workers[step.w].Exited?;
    }
  }

  /** From any state in which Stop has begun, every schedule is shorter than the measure, and it can
      be continued exactly until Stop has returned. */
  lemma StopReturns(s: Sys, steps: seq<Step>, end: Sys)
    requires Reachable(s) && !s.stop.Started? && Leads(s, steps, end)
    ensures |steps| <= Measure(s)
    ensures end.stop.Stopped? <==> forall step :: !Enabled(end, step)
    ensures |steps| == Measure(s) ==> end.stop.Stopped?
  {
    ReachableOk(s);
    RunShrinks(s, steps, end);
    if end.stop.Stopped? {
      forall step
        ensures !Enabled(end, step)
      {
        StoppedIsFinal(end, step);
      }
    } else {
      var step := SomeStep(end);
      StepShrinks(end, step);
    }
  }
}
