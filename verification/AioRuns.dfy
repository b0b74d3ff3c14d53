/** The protocol over whole runs, from Start to the end of Stop. */
module AioRuns {
  import opened Aio
  import opened AioCounting
  import opened AioProtocol
  import opened AioShutdown

  // --------------------------------------------------------------- ordering

  /** Entry k of the log of a positionless queue is done, unless it was popped last
      and the queue's one worker still has it. */
  predicate Settled(status: Statuses, t: Task, w: nat, last: bool) {
    t in status && status[t].Pushed? && (status[t].ph.Done? || (last && status[t].ph.Held? && status[t].ph.w == w))
  }

  ghost predicate OrderOk(s: Sys) {
    && |s.log| == |s.pos| == s.nio + 1
    && forall w: nat, k: nat :: w < s.nio && k < s.pos[w] && k < |s.log[w]| ==>
         Settled(s.status, s.log[w][k], w, k == s.pos[w] - 1)
  }

  lemma WorkOrder(s: Sys, step: Step)
    requires PlacesOk(s) && OrderOk(s) && Enabled(s, step)
    requires step.Execute? || step.Report? || step.CountUp? || step.Finish?
    ensures OrderOk(Apply(s, step))
  {
    var s' := Apply(s, step);
    HeldStatus(s, step.w);
    forall w: nat, k: nat | w < s.nio && k < s.pos[w] && k < |s.log[w]|
      ensures Settled(s'.status, s.log[w][k], w, k == s.pos[w] - 1)
    {
      assert Settled(s.status, s.log[w][k], w, k == s.pos[w] - 1);
    }
  }

  lemma PushOrder(s: Sys, r: nat)
    requires PlacesOk(s) && OrderOk(s) && Enabled(s, PushNext(r))
    ensures OrderOk(Apply(s, PushNext(r)))
  {
    var s', t := Apply(s, PushNext(r)), Task(r, s.pushed[r]);
    assert t in s.status && s.status[t].Unpushed?;
    forall w: nat, k: nat | w < s.nio && k < s'.pos[w] && k < |s'.log[w]|
      ensures Settled(s'.status, s'.log[w][k], w, k == s'.pos[w] - 1)
    {
      assert s.pos[w] <= |s.log[w]|;
      assert Settled(s.status, s.log[w][k], w, k == s.pos[w] - 1);
    }
  }

  /** A waiting worker has finished everything it popped. */
  lemma WaitingMeansDone(s: Sys, w: nat, k: nat)
    requires PlacesOk(s) && OrderOk(s) && w < s.nio && s.workers[w].Waiting? && k < s.pos[w] && k < |s.log[w]|
    ensures Settled(s.status, s.log[w][k], w, false)
  {
    assert Settled(s.status, s.log[w][k], w, k == s.pos[w] - 1);
  }

  lemma PopOrder(s: Sys, v: nat)
    requires PlacesOk(s) && OrderOk(s) && Enabled(s, PopItem(v))
    ensures OrderOk(Apply(s, PopItem(v)))
  {
    var s', q := Apply(s, PopItem(v)), QueueOf(s.nio, v);
    if s.queues[q][0].Job? {
      var t := s.queues[q][0].task;
      HeadOfQueue(s, q);
      forall w: nat, k: nat | w < s.nio && k < s'.pos[w] && k < |s'.log[w]|
        ensures Settled(s'.status, s'.log[w][k], w, k == s'.pos[w] - 1)
      {
        if w == q && k == s.pos[q] {
          assert s.log[w][k] == t;
        } else {
          assert LogEntryOk(s.nio, s.cmds, s.status, s.log, w, k);
          assert s.log[w][k] != t;
          if w == q {
            WaitingMeansDone(s, w, k);
          } else {
            assert Settled(s.status, s.log[w][k], w, k == s.pos[w] - 1);
          }
        }
      }
    }
  }

  lemma SubmitOrder(s: Sys, cs: seq<Cmd>)
    requires PlacesOk(s) && OrderOk(s) && Enabled(s, Submit(cs))
    ensures OrderOk(Apply(s, Submit(cs)))
  {
    var s' := Apply(s, Submit(cs));
    forall w: nat, k: nat | w < s.nio && k < s.pos[w] && k < |s.log[w]|
      ensures Settled(s'.status, s.log[w][k], w, k == s.pos[w] - 1)
    {
      assert Settled(s.status, s.log[w][k], w, k == s.pos[w] - 1);
    }
  }

  lemma StepOrder(s: Sys, step: Step)
    requires Inv(s) && OrderOk(s) && Enabled(s, step)
    ensures OrderOk(Apply(s, step))
  {
    match step
    case Submit(cs) => SubmitOrder(s, cs);
    case PushNext(r) => PushOrder(s, r);
    case PopItem(v) => PopOrder(s, v);
    case StopBegin =>
    case StopPush =>
    case StopJoin =>
    case _ => WorkOrder(s, step);
  }

  // ------------------------------------------------------------- whole runs

  /** What Start leaves behind: empty queues, waiting workers, no request yet. */
  function Init(nio: nat, npio: nat): Sys {
    Sys(nio, npio, [], [], [], [], [], seq(nio + 1, _ => []), seq(nio + npio, _ => Waiting), Started,
        map[], seq(nio + 1, _ => []), seq(nio + 1, _ => 0))
  }

  /** The steps can be taken one after the other, and lead from s to end. */
  ghost predicate Leads(s: Sys, steps: seq<Step>, end: Sys)
    decreases |steps|
  {
    if steps == [] then end == s
    else Enabled(s, steps[0]) && Leads(Apply(s, steps[0]), steps[1..], end)
  }

  ghost predicate AllOk(s: Sys) {
    Inv(s) && ShutOk(s) && OrderOk(s)
  }

  lemma InitOk(nio: nat, npio: nat)
    requires nio >= 1 && npio >= 1
    ensures AllOk(Init(nio, npio))
  {
    var s := Init(nio, npio);
    forall q: nat | q < |s.queues|
      ensures QueueShut(s, q)
    {
      assert ExitedOf(nio, s.workers, q) == {};
    }
  }

  lemma StepOk(s: Sys, step: Step)
    requires AllOk(s) && Enabled(s, step)
    ensures AllOk(Apply(s, step))
  {
    StepKeeps(s, step);
    StepShut(s, step);
    StepOrder(s, step);
  }

  lemma {:induction false} RunOk(s: Sys, steps: seq<Step>, end: Sys)
    requires AllOk(s) && Leads(s, steps, end)
    ensures AllOk(end)
    decreases |steps|
  {
    if steps == [] {
    } else {
      StepOk(s, steps[0]);
      RunOk(Apply(s, steps[0]), steps[1..], end);
    }
  }

  /** A state the started service can come to, through any interleaving. */
  ghost predicate Reachable(s: Sys) {
    exists steps :: s.nio >= 1 && s.npio >= 1 && Leads(Init(s.nio, s.npio), steps, s)
  }

  lemma ReachableOk(s: Sys)
    requires Reachable(s)
    ensures AllOk(s)
  {
    var steps :| Leads(Init(s.nio, s.npio), steps, s);
    InitOk(s.nio, s.npio);
    RunOk(Init(s.nio, s.npio), steps, s);
  }

  // ---------------------------------------------------------- main theorems

  predicate IsDone(s: Sys, t: Task) {
    t in s.status && s.status[t].Pushed? && s.status[t].ph.Done?
  }

  /** The commands of a request that returned -1. */
  function Failed(s: Sys, r: nat): set<nat>
    requires r < |s.cmds|
  {
    set i: nat | i < |s.cmds[r]| && Task(r, i) in s.status && IsFailure(s.status[Task(r, i)])
  }

  /** In every interleaving: no callback before all commands of the request have run; when all are
      done there was exactly one, told the number of commands that returned -1; a request without
      commands never gets one. */
  lemma CallbackExactlyOnce(s: Sys, r: nat)
    requires Reachable(s) && r < |s.cmds|
    ensures r < |s.callbacks|
    ensures s.callbacks[r] != [] ==>
              s.callbacks[r] == [|Failed(s, r)|] &&
              forall i: nat :: i < |s.cmds[r]| ==> Task(r, i) in s.status && IsCounted(s.status[Task(r, i)])
    ensures |s.cmds[r]| > 0 && (forall i: nat :: i < |s.cmds[r]| ==> IsDone(s, Task(r, i))) ==>
              s.callbacks[r] == [|Failed(s, r)|]
    ensures |s.cmds[r]| == 0 ==> s.callbacks[r] == []
  {
    ReachableOk(s);
    var n := |s.cmds[r]|;
    assert Failed(s, r) == FailuresOf(s.status, r, n);
    Outcome(s.status, r, n, s.fails[r], s.completed[r], s.callbacks[r]);
    if forall i: nat :: i < n ==> IsDone(s, Task(r, i)) {
      assert forall i: nat :: i < n ==>
          Task(r, i) in s.status && s.status[Task(r, i)].Pushed? && s.status[Task(r, i)].ph.Done? by {
        forall i: nat | i < n
          ensures Task(r, i) in s.status && s.status[Task(r, i)].Pushed? && s.status[Task(r, i)].ph.Done?
        {
          assert IsDone(s, Task(r, i));
        }
      }
    }
  }

  /** When Stop has returned: all queues are empty, every worker has left on exactly one sentinel,
      every command ever submitted is done, and every request with commands has had its callback. */
  lemma StopCompletes(s: Sys)
    requires Reachable(s) && s.stop.Stopped?
    ensures forall q: nat :: q < |s.queues| ==> s.queues[q] == []
    ensures forall w: nat :: w < |s.workers| ==> s.workers[w].Exited?
    ensures forall q: nat :: q <= s.nio ==> Sent(s.stop, s.nio, s.npio, q) == |WorkersOf(s.nio, s.npio, q)|
    ensures forall t :: t in s.status ==> IsDone(s, t)
    ensures forall r: nat :: r < |s.cmds| && |s.cmds[r]| > 0 ==> r < |s.callbacks| && |s.callbacks[r]| == 1
  {
    ReachableOk(s);
    forall q: nat | q < |s.queues|
      ensures s.queues[q] == [] && Sent(s.stop, s.nio, s.npio, q) == |WorkersOf(s.nio, s.npio, q)|
    {
      JoinedQueue(s, q);
    }
    forall t | t in s.status
      ensures IsDone(s, t)
    {
      NothingLeft(s, t);
    }
    forall r: nat | r < |s.cmds| && |s.cmds[r]| > 0
      ensures r < |s.callbacks| && |s.callbacks[r]| == 1
    {
      forall i: nat | i < |s.cmds[r]|
        ensures IsDone(s, Task(r, i))
      {
        assert Task(r, i) in s.status;
      }
      CallbackExactlyOnce(s, r);
    }
  }

  /** Positionless commands on one file descriptor: whenever a later one has been taken from the
      queue, the earlier one is done, so they run one at a time and in the order of their pushes. */
  lemma SameFdInOrder(s: Sys, a: Task, b: Task)
    requires Reachable(s)
    requires a in s.status && b in s.status && s.status[a].Pushed? && s.status[b].Pushed?
    requires a.req < |s.cmds| && a.idx < |s.cmds[a.req]| && b.req < |s.cmds| && b.idx < |s.cmds[b.req]|
    requires var ca, cb := s.cmds[a.req][a.idx], s.cmds[b.req][b.idx];
             ca.op < CMD_MIN_PIO && cb.op < CMD_MIN_PIO && ca.fd == cb.fd
    requires s.status[a].k < s.status[b].k && !s.status[b].ph.InQueue?
    ensures IsDone(s, a)
  {
    ReachableOk(s);
    var q := RouteBounded(s.nio, s.cmds, a);
    assert RouteOf(s.nio, s.cmds, b) == q && q < s.nio;
    assert LogHas(s.nio, s.cmds, s.log, a, s.status[a].k);
    assert s.status[b].k < s.pos[RouteBounded(s.nio, s.cmds, b)];
    assert Settled(s.status, s.log[q][s.status[a].k], q, s.status[a].k == s.pos[q] - 1);
  }

  /** The bookkeeping conditions in Enabled never hold a thread back: a worker that pops, */
  lemma PopEnabled(s: Sys, w: nat)
    requires Reachable(s)
    ensures Enabled(s, PopItem(w)) <==>
            && w < |s.workers| && s.workers[w].Waiting?
            && QueueOf(s.nio, w) < |s.queues| && s.queues[QueueOf(s.nio, w)] != []
  {
    assert Inv(s) by { ReachableOk(s); }
    if w < |s.workers| && s.workers[w].Waiting? && s.queues[QueueOf(s.nio, w)] != [] {
      WaitingCanPop(s, w);
    }
  }

  /** a submitter that pushes its next command, */
  lemma PushEnabled(s: Sys, r: nat)
    requires Reachable(s)
    ensures Enabled(s, PushNext(r)) <==> r < |s.cmds| && r < |s.pushed| && s.pushed[r] < |s.cmds[r]|
  {
    assert PlacesOk(s) by { ReachableOk(s); }
  }

  /** and a worker that goes on with its command. */
  lemma WorkEnabled(s: Sys, w: nat, ret: int)
    requires Reachable(s)
    ensures var busy := w < |s.workers| && s.workers[w].Busy?;
            && (Enabled(s, Execute(w, ret)) <==> busy && s.workers[w].stage.Popped?)
            && (Enabled(s, Report(w)) <==> busy && s.workers[w].stage.Ran?)
            && (Enabled(s, CountUp(w)) <==> busy && s.workers[w].stage.Reported?)
            && (Enabled(s, Finish(w)) <==> busy && s.workers[w].stage.Counted?)
  {
    if w < |s.workers| && s.workers[w].Busy? {
      BusyHolds(s, w);
    }
  }

  lemma BusyHolds(s: Sys, w: nat)
    requires Reachable(s) && w < |s.workers| && s.workers[w].Busy?
    ensures HeldAt(s, w)
  {
    ReachableOk(s);
    BusyCanMove(s, w);
  }

  /** While Stop waits in a join, every worker it waits for can move. */
  lemma AwaitedCanMove(s: Sys, w: nat)
    requires Reachable(s) && w < |s.workers| && !s.workers[w].Exited?
    requires if w < s.nio then s.stop.JoinIo? else s.stop.JoinPio?
    ensures CanMove(s, w)
  {
    ReachableOk(s);
    JoinProgress(s, w);
  }
}
