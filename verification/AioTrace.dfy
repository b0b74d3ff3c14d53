/** What the steps of a run themselves say: which results the system calls gave, what was pushed to
    which queue, and in which order the commands were executed. */
module AioTrace {
  import opened Bits
  import opened Collections
  import opened Aio
  import opened AioCounting
  import opened AioProtocol
  import opened AioShutdown
  import opened AioRuns

  /** What the system call gave, if the step is the system call of command t. */
  function StepResult(s: Sys, step: Step, t: Task): seq<int>
    requires Enabled(s, step)
  {
    if step.Execute? && s.workers[step.w].task == t then [step.ret] else []
  }

  /** The results that the system calls of command t gave, in the order of the steps. */
  function Results(s: Sys, steps: seq<Step>, t: Task): seq<int>
    decreases |steps|
  {
    if steps == [] || !Enabled(s, steps[0]) then []
    else StepResult(s, steps[0], t) + Results(Apply(s, steps[0]), steps[1..], t)
  }

  /** The commands that were pushed to queue q, in the order of the steps. */
  function Pushes(s: Sys, steps: seq<Step>, q: nat): seq<Task>
    decreases |steps|
  {
    if steps == [] || !Enabled(s, steps[0]) then []
    else StepPushes(s, steps[0], q) + Pushes(Apply(s, steps[0]), steps[1..], q)
  }

  /** Submit pushes the next command of its request, one with a position to the shared queue, any
      other to the queue that its file descriptor selects. */
  function StepPushes(s: Sys, step: Step, q: nat): seq<Task>
    requires Enabled(s, step)
  {
    if step.PushNext? then
      var cmd := s.cmds[step.r][s.pushed[step.r]];
      var to := if cmd.op >= CMD_MIN_PIO || s.nio == 0 then s.nio else cmd.fd % TWO64 % s.nio;
      if to == q then [Task(step.r, s.pushed[step.r])] else []
    else []
  }

  /** The commands that worker w executed, in the order of the steps. */
  function Executions(s: Sys, steps: seq<Step>, w: nat): seq<Task>
    decreases |steps|
  {
    if steps == [] || !Enabled(s, steps[0]) then []
    else StepExecutions(s, steps[0], w) + Executions(Apply(s, steps[0]), steps[1..], w)
  }

  function StepExecutions(s: Sys, step: Step, w: nat): seq<Task>
    requires Enabled(s, step)
  {
    if step.Execute? && step.w == w then [s.workers[w].task] else []
  }

  // ---------------------------------------------------------------- results

  /** The result the state holds for a command that has run. */
  function Recorded(status: Statuses, t: Task): seq<int> {
    if t !in status || !status[t].Pushed? then []
    else
      match status[t].ph
      case InQueue => []
      case Held(_, Popped) => []
      case Held(_, Ran(ret)) => [ret]
      case Held(_, Reported(ret)) => [ret]
      case Held(_, Counted(ret, _)) => [ret]
      case Done(ret) => [ret]
  }

  lemma WorkRecords(s: Sys, step: Step, t: Task)
    requires PlacesOk(s) && Enabled(s, step) && (step.Execute? || step.Report? || step.CountUp? || step.Finish?)
    ensures Recorded(Apply(s, step).status, t) == Recorded(s.status, t) + StepResult(s, step, t)
  {
    assert s.status[s.workers[step.w].task].ph == Held(step.w, s.workers[step.w].stage) by { HeldStatus(s, step.w); }
  }

  lemma PopRecords(s: Sys, w: nat, t: Task)
    requires PlacesOk(s) && Enabled(s, PopItem(w))
    ensures Recorded(Apply(s, PopItem(w)).status, t) == Recorded(s.status, t)
  {
    var q := QueueOf(s.nio, w);
    if s.queues[q][0].Job? {
      assert s.status[s.queues[q][0].task].ph == InQueue by { HeadOfQueue(s, q); }
    }
  }

  lemma OtherRecords(s: Sys, step: Step, t: Task)
    requires TasksOk(s.cmds, s.status) && PushedOk(s.cmds, s.pushed, s.status) && Enabled(s, step)
    requires step.Submit? || step.PushNext? || step.StopBegin? || step.StopPush? || step.StopJoin?
    ensures Recorded(Apply(s, step).status, t) == Recorded(s.status, t)
  {
  }

  lemma StepRecords(s: Sys, step: Step, t: Task)
    requires PlacesOk(s) && Enabled(s, step)
    ensures Recorded(Apply(s, step).status, t) == Recorded(s.status, t) + StepResult(s, step, t)
  {
    match step
    case PopItem(w) => PopRecords(s, w, t);
    case Execute(_, _) => WorkRecords(s, step, t);
    case Report(_) => WorkRecords(s, step, t);
    case CountUp(_) => WorkRecords(s, step, t);
    case Finish(_) => WorkRecords(s, step, t);
    case _ => OtherRecords(s, step, t);
  }

  lemma {:induction false} RunRecords(s: Sys, steps: seq<Step>, end: Sys, t: Task)
    requires AllOk(s) && Leads(s, steps, end)
    ensures Recorded(end.status, t) == Recorded(s.status, t) + Results(s, steps, t)
    decreases |steps|
  {
    if steps == [] {
    } else {
      var s', had, more := Apply(s, steps[0]), Recorded(s.status, t), StepResult(s, steps[0], t);
      assert Recorded(s'.status, t) == had + more by { StepRecords(s, steps[0], t); }
      assert Recorded(end.status, t) == had + more + Results(s', steps[1..], t) by {
        StepOk(s, steps[0]);
        RunRecords(s', steps[1..], end, t);
      }
      Regroup(had, more, Results(s', steps[1..], t));
    }
  }

  /** Every command has at most one system call, exactly one once it is done, and the result kept for
      it is the one that call gave. */
  lemma ResultOfCall(nio: nat, npio: nat, steps: seq<Step>, s: Sys, t: Task)
    requires nio >= 1 && npio >= 1 && Leads(Init(nio, npio), steps, s)
    ensures Results(Init(nio, npio), steps, t) == Recorded(s.status, t)
    ensures |Results(Init(nio, npio), steps, t)| <= 1
    ensures IsDone(s, t) ==> Results(Init(nio, npio), steps, t) == [s.status[t].ph.ret]
  {
    InitOk(nio, npio);
    RunRecords(Init(nio, npio), steps, s, t);
  }

  /** The commands of request r whose system call gave -1. */
  function FailedCalls(start: Sys, steps: seq<Step>, r: nat, n: nat): set<nat> {
    set i: nat | i < n && Results(start, steps, Task(r, i)) == [-1]
  }

  /** The callback of a request comes at most once, only after every one of its system calls, and is
      told how many of these calls gave -1; once all commands are done it has come. */
  lemma CallbackTellsFailures(nio: nat, npio: nat, steps: seq<Step>, s: Sys, r: nat)
    requires nio >= 1 && npio >= 1 && Leads(Init(nio, npio), steps, s) && r < |s.cmds|
    ensures r < |s.callbacks|
    ensures var n, failed := |s.cmds[r]|, |FailedCalls(Init(nio, npio), steps, r, |s.cmds[r]|)|;
            && (s.callbacks[r] != [] ==>
                  && s.callbacks[r] == [failed]
                  && forall i: nat :: i < n ==> |Results(Init(nio, npio), steps, Task(r, i))| == 1)
            && (n > 0 && (forall i: nat :: i < n ==> IsDone(s, Task(r, i))) ==> s.callbacks[r] == [failed])
  {
    var start, n := Init(nio, npio), |s.cmds[r]|;
    RunStays(start, steps, s);
    assert Reachable(s);
    CallbackExactlyOnce(s, r);
    forall i: nat
      ensures Results(start, steps, Task(r, i)) == Recorded(s.status, Task(r, i))
    {
      ResultOfCall(nio, npio, steps, s, Task(r, i));
    }
    if s.callbacks[r] != [] || (n > 0 && forall i: nat :: i < n ==> IsDone(s, Task(r, i))) {
      forall i: nat | i < n
        ensures |Results(start, steps, Task(r, i))| == 1
        ensures i in Failed(s, r) <==> Results(start, steps, Task(r, i)) == [-1]
      {
        assert n > 0 && (forall j: nat :: j < n ==> IsDone(s, Task(r, j))) ==> IsDone(s, Task(r, i));
      }
      assert Failed(s, r) == FailedCalls(start, steps, r, n);
    }
  }

  /** The number of threads never changes. */
  lemma {:induction false} RunStays(s: Sys, steps: seq<Step>, end: Sys)
    requires Leads(s, steps, end)
    ensures end.nio == s.nio && end.npio == s.npio
    decreases |steps|
  {
    if steps == [] {
    } else {
      RunStays(Apply(s, steps[0]), steps[1..], end);
    }
  }

  // ------------------------------------------------------------------ order

  lemma StepLogs(s: Sys, step: Step, q: nat)
    requires PlacesOk(s) && Enabled(s, step) && q <= s.nio
    ensures var s' := Apply(s, step);
            |s'.log| == |s.log| && s'.nio == s.nio && s'.log[q] == s.log[q] + StepPushes(s, step, q)
  {
    if step.PushNext? {
      RouteWithin(s.nio, s.cmds, Task(step.r, s.pushed[step.r]));
    }
  }

  lemma {:induction false} RunLogs(s: Sys, steps: seq<Step>, end: Sys, q: nat)
    requires AllOk(s) && Leads(s, steps, end) && q <= s.nio
    ensures q < |end.log| && end.log[q] == s.log[q] + Pushes(s, steps, q)
    decreases |steps|
  {
    if steps == [] {
    } else {
      var s', more := Apply(s, steps[0]), StepPushes(s, steps[0], q);
      assert s'.nio == s.nio && q < |s'.log| && s'.log[q] == s.log[q] + more by { StepLogs(s, steps[0], q); }
      assert q < |end.log| && end.log[q] == s'.log[q] + Pushes(s', steps[1..], q) by {
        StepOk(s, steps[0]);
        RunLogs(s', steps[1..], end, q);
      }
      Regroup(s.log[q], more, Pushes(s', steps[1..], q));
    }
  }

  /** How much of its log the worker of a positionless queue has executed. */
  function ExecutedCount(s: Sys, w: nat): int
    requires w < |s.workers| && w < |s.pos|
  {
    var popped: int := s.pos[w];
    if s.workers[w].Busy? && s.workers[w].stage.Popped? then popped - 1 else popped
  }

  /** A busy worker of a positionless queue has the command that was popped last. */
  lemma HeldIsLast(s: Sys, w: nat)
    requires PlacesOk(s) && OrderOk(s) && w < s.nio && s.workers[w].Busy?
    ensures 0 < s.pos[w] <= |s.log[w]| && s.log[w][s.pos[w] - 1] == s.workers[w].task
  {
    var t := s.workers[w].task;
    assert WorkerOk(s.nio, s.cmds, s.status, w, s.workers[w]);
    assert LogHas(s.nio, s.cmds, s.log, t, s.status[t].k);
    var k := s.status[t].k;
    assert k < s.pos[RouteBounded(s.nio, s.cmds, t)];
    assert Settled(s.status, s.log[w][k], w, k == s.pos[w] - 1);
  }

  ghost predicate ExecutedOk(s: Sys, w: nat, done: seq<Task>) {
    && w < s.nio && w < |s.workers| && |s.pos| == |s.log| == s.nio + 1
    && 0 <= ExecutedCount(s, w) <= |s.log[w]| && done == s.log[w][..ExecutedCount(s, w)]
  }

  lemma StepExecutes(s: Sys, step: Step, w: nat, done: seq<Task>)
    requires PlacesOk(s) && OrderOk(s) && Enabled(s, step) && ExecutedOk(s, w, done)
    ensures ExecutedOk(Apply(s, step), w, done + StepExecutions(s, step, w))
  {
    assert done + [] == done;
    match step
    case PopItem(v) => PopExecutes(s, v, w, done);
    case PushNext(r) => PushExecutes(s, r, w, done);
    case Execute(v, ret) => CallExecutes(s, v, ret, w, done);
    case _ => OtherExecutes(s, step, w, done);
  }

  lemma OtherExecutes(s: Sys, step: Step, w: nat, done: seq<Task>)
    requires Enabled(s, step) && !step.PopItem? && !step.PushNext? && !step.Execute? && ExecutedOk(s, w, done)
    ensures ExecutedOk(Apply(s, step), w, done)
  {
  }

  lemma PopExecutes(s: Sys, v: nat, w: nat, done: seq<Task>)
    requires PlacesOk(s) && Enabled(s, PopItem(v)) && ExecutedOk(s, w, done)
    ensures ExecutedOk(Apply(s, PopItem(v)), w, done)
  {
    var q := QueueOf(s.nio, v);
    if s.queues[q][0].Job? {
      assert s.pos[q] < |s.log[q]| by { HeadOfQueue(s, q); }
    }
  }

  lemma PushExecutes(s: Sys, r: nat, w: nat, done: seq<Task>)
    requires Enabled(s, PushNext(r)) && ExecutedOk(s, w, done)
    ensures ExecutedOk(Apply(s, PushNext(r)), w, done)
  {
    RouteWithin(s.nio, s.cmds, Task(r, s.pushed[r]));
  }

  lemma CallExecutes(s: Sys, v: nat, ret: int, w: nat, done: seq<Task>)
    requires PlacesOk(s) && OrderOk(s) && Enabled(s, Execute(v, ret)) && ExecutedOk(s, w, done)
    ensures ExecutedOk(Apply(s, Execute(v, ret)), w, done + StepExecutions(s, Execute(v, ret), w))
  {
    if v == w {
      var n := ExecutedCount(s, w);
      assert n < |s.log[w]| && s.log[w][n] == s.workers[w].task by { HeldIsLast(s, w); }
      assert s.log[w][..n + 1] == s.log[w][..n] + [s.log[w][n]];
    }
  }

  lemma {:induction false} RunExecutes(s: Sys, steps: seq<Step>, end: Sys, w: nat, done: seq<Task>)
    requires AllOk(s) && Leads(s, steps, end) && ExecutedOk(s, w, done)
    ensures ExecutedOk(end, w, done + Executions(s, steps, w))
    decreases |steps|
  {
    if steps == [] {
      assert done + [] == done;
    } else {
      var s', more := Apply(s, steps[0]), StepExecutions(s, steps[0], w);
      assert ExecutedOk(end, w, done + more + Executions(s', steps[1..], w)) by {
        StepExecutes(s, steps[0], w, done);
        StepOk(s, steps[0]);
        RunExecutes(s', steps[1..], end, w, done + more);
      }
      Regroup(done, more, Executions(s', steps[1..], w));
    }
  }

  /** The commands of a positionless queue are executed by its worker in the order of their pushes,
      none left out: at any time those executed are the first ones pushed. */
  lemma ExecutedInPushOrder(nio: nat, npio: nat, steps: seq<Step>, s: Sys, w: nat)
    requires w < nio && npio >= 1 && Leads(Init(nio, npio), steps, s)
    ensures var done, pushed := Executions(Init(nio, npio), steps, w), Pushes(Init(nio, npio), steps, w);
            |done| <= |pushed| && done == pushed[..|done|]
  {
    var start := Init(nio, npio);
    InitOk(nio, npio);
    RunLogs(start, steps, s, w);
    assert s.log[w] == Pushes(start, steps, w);
    RunExecutes(start, steps, s, w, []);
    assert [] + Executions(start, steps, w) == Executions(start, steps, w);
  }

  function PushedOf(s: Sys, r: nat): nat {
    if r < |s.pushed| then s.pushed[r] else 0
  }

  /** The places of the commands of request r that were pushed, in the order of the steps. */
  function Indices(s: Sys, steps: seq<Step>, r: nat): seq<nat>
    decreases |steps|
  {
    if steps == [] || !Enabled(s, steps[0]) then []
    else (if steps[0] == PushNext(r) then [s.pushed[r]] else []) + Indices(Apply(s, steps[0]), steps[1..], r)
  }

  /** Submit pushes the commands of a request one after the other, from the first on. */
  lemma {:induction false} PushedFromFirst(s: Sys, steps: seq<Step>, end: Sys, r: nat)
    requires Leads(s, steps, end)
    ensures var n := Indices(s, steps, r);
            PushedOf(end, r) == PushedOf(s, r) + |n| && forall i :: 0 <= i < |n| ==> n[i] == PushedOf(s, r) + i
    decreases |steps|
  {
    if steps == [] {
    } else {
      StepPushed(s, steps[0], r);
      PushedFromFirst(Apply(s, steps[0]), steps[1..], end, r);
    }
  }

  lemma StepPushed(s: Sys, step: Step, r: nat)
    requires Enabled(s, step)
    ensures PushedOf(Apply(s, step), r) == PushedOf(s, r) + (if step == PushNext(r) then 1 else 0)
  {
  }

  /** A command stands in the log of the shared queue exactly if it has a position or needs none, else
      in the log that its file descriptor selects; the log is what the steps pushed. */
  lemma LoggedWhereRouted(nio: nat, npio: nat, steps: seq<Step>, s: Sys, q: nat, k: nat)
    requires nio >= 1 && npio >= 1 && Leads(Init(nio, npio), steps, s) && q <= nio
    ensures q < |s.log| && s.log[q] == Pushes(Init(nio, npio), steps, q)
    ensures k < |s.log[q]| ==>
              var t := s.log[q][k];
              && t.req < |s.cmds| && t.idx < |s.cmds[t.req]|
              && var cmd := s.cmds[t.req][t.idx];
                 q == if cmd.op >= CMD_MIN_PIO then nio else cmd.fd % TWO64 % nio
  {
    InitOk(nio, npio);
    RunLogs(Init(nio, npio), steps, s, q);
    RunStays(Init(nio, npio), steps, s);
    RunOk(Init(nio, npio), steps, s);
    if k < |s.log[q]| {
      assert LogEntryOk(s.nio, s.cmds, s.status, s.log, q, k);
    }
  }
}
