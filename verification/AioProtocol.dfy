/** Where every command is: unpushed, in its queue, with one worker, or done; and that the
    counters of all requests stay right through every step of the protocol. */
module AioProtocol {
  import opened Aio
  import opened AioCounting

  ghost predicate TasksOk(cmds: seq<seq<Cmd>>, status: Statuses) {
    forall t :: t in status <==> t.req < |cmds| && t.idx < |cmds[t.req]|
  }

  /** Commands are pushed in order; those below pushed[r] have been. */
  ghost predicate PushedOk(cmds: seq<seq<Cmd>>, pushed: seq<nat>, status: Statuses) {
    && |pushed| == |cmds|
    && (forall r :: 0 <= r < |cmds| ==> pushed[r] <= |cmds[r]|)
    && (forall t :: t in status && t.req < |pushed| ==> (status[t].Unpushed? <==> t.idx >= pushed[t.req]))
  }

  predicate LogHas(nio: nat, cmds: seq<seq<Cmd>>, log: seq<seq<Task>>, t: Task, k: nat) {
    var q := RouteOf(nio, cmds, t);
    q < |log| && k < |log[q]| && log[q][k] == t
  }

  predicate LogEntryOk(nio: nat, cmds: seq<seq<Cmd>>, status: Statuses, log: seq<seq<Task>>, q: nat, k: nat)
    requires q < |log| && k < |log[q]|
  {
    var t := log[q][k];
    t in status && status[t].Pushed? && status[t].k == k && RouteOf(nio, cmds, t) == q
  }

  /** Every pushed command stands in the log of its queue, at its own place and no other. */
  ghost predicate Logged(nio: nat, cmds: seq<seq<Cmd>>, status: Statuses, log: seq<seq<Task>>) {
    && |log| == nio + 1
    && (forall t :: t in status && status[t].Pushed? ==> LogHas(nio, cmds, log, t, status[t].k))
    && (forall q: nat, k: nat :: q < |log| && k < |log[q]| ==> LogEntryOk(nio, cmds, status, log, q, k))
  }

  /** A queue holds the part of its log that has not been popped. */
  ghost predicate QueuesOk(nio: nat, queues: seq<seq<Item>>, log: seq<seq<Task>>, pos: seq<nat>) {
    && |queues| == |pos| == |log| == nio + 1
    && (forall q: nat :: q <= nio ==> pos[q] <= |log[q]| && Jobs(queues[q]) == log[q][pos[q]..])
  }

  ghost predicate WaitingOk(nio: nat, cmds: seq<seq<Cmd>>, status: Statuses, pos: seq<nat>) {
    && |pos| == nio + 1
    && (forall t :: t in status && status[t].Pushed? ==>
          (status[t].ph.InQueue? <==> status[t].k >= pos[RouteBounded(nio, cmds, t)]))
  }

  function RouteBounded(nio: nat, cmds: seq<seq<Cmd>>, t: Task): (q: nat)
    ensures q <= nio && q == RouteOf(nio, cmds, t)
  {
    RouteWithin(nio, cmds, t);
    RouteOf(nio, cmds, t)
  }

  predicate WorkerOk(nio: nat, cmds: seq<seq<Cmd>>, status: Statuses, w: nat, x: Worker) {
    x.Busy? ==>
      && x.task in status && status[x.task].Pushed? && status[x.task].ph == Held(w, x.stage)
      && RouteOf(nio, cmds, x.task) == QueueOf(nio, w)
  }

  /** A busy worker holds one command of its queue, and a held command has its worker. */
  ghost predicate WorkersOk(nio: nat, cmds: seq<seq<Cmd>>, status: Statuses, workers: seq<Worker>) {
    && (forall w: nat :: w < |workers| ==> WorkerOk(nio, cmds, status, w, workers[w]))
    && (forall t :: t in status && status[t].Pushed? && status[t].ph.Held? ==>
          status[t].ph.w < |workers| && workers[status[t].ph.w] == Busy(t, status[t].ph.stage))
  }

  ghost predicate CountersOk(s: Sys) {
    && |s.fails| == |s.completed| == |s.callbacks| == |s.cmds|
    && forall r: nat :: r < |s.cmds| ==> ReqOk(s.status, r, |s.cmds[r]|, s.fails[r], s.completed[r], s.callbacks[r])
  }

  /** Where everything is. */
  ghost predicate PlacesOk(s: Sys) {
    && s.nio >= 1 && s.npio >= 1 && |s.workers| == s.nio + s.npio
    && TasksOk(s.cmds, s.status)
    && PushedOk(s.cmds, s.pushed, s.status)
    && Logged(s.nio, s.cmds, s.status, s.log)
    && QueuesOk(s.nio, s.queues, s.log, s.pos)
    && WaitingOk(s.nio, s.cmds, s.status, s.pos)
    && WorkersOk(s.nio, s.cmds, s.status, s.workers)
  }

  ghost predicate Inv(s: Sys) {
    PlacesOk(s) && CountersOk(s)
  }

  // ------------------------------------------------------- lists of items

  lemma {:induction false} JobsAppend(q: seq<Item>, item: Item)
    ensures Jobs(q + [item]) == if item.Sentinel? then Jobs(q) else Jobs(q) + [item.task]
  {
    if q == [] {
      assert q + [item] == [item];
    } else {
      JobsAppend(q[1..], item);
      assert (q + [item])[1..] == q[1..] + [item];
    }
  }

  // --------------------------------------------------- a task moves forward

  /** A pushed command that keeps its place and is not in the queue before or after. */
  lemma ForwardKeeps(nio: nat, cmds: seq<seq<Cmd>>, pushed: seq<nat>, status: Statuses, log: seq<seq<Task>>,
                     pos: seq<nat>, t: Task, ph: Phase)
    requires t in status && status[t].Pushed? && !status[t].ph.InQueue? && !ph.InQueue?
    requires TasksOk(cmds, status) && PushedOk(cmds, pushed, status)
    requires Logged(nio, cmds, status, log) && WaitingOk(nio, cmds, status, pos)
    ensures var status' := status[t := Pushed(status[t].k, ph)];
            && TasksOk(cmds, status') && PushedOk(cmds, pushed, status')
            && Logged(nio, cmds, status', log) && WaitingOk(nio, cmds, status', pos)
  {
    var status' := status[t := Pushed(status[t].k, ph)];
    forall q: nat, k: nat | q < |log| && k < |log[q]|
      ensures LogEntryOk(nio, cmds, status', log, q, k)
    {
      assert LogEntryOk(nio, cmds, status, log, q, k);
    }
  }

  lemma MoveWorkers(nio: nat, cmds: seq<seq<Cmd>>, status: Statuses, workers: seq<Worker>, w: nat, stage: Stage)
    requires WorkersOk(nio, cmds, status, workers) && w < |workers| && workers[w].Busy?
    ensures var t := workers[w].task;
            && t in status && status[t].Pushed?
            && WorkersOk(nio, cmds, status[t := Pushed(status[t].k, Held(w, stage))], workers[w := Busy(t, stage)])
  {
    var t := workers[w].task;
    assert WorkerOk(nio, cmds, status, w, workers[w]);
    var status', workers' := status[t := Pushed(status[t].k, Held(w, stage))], workers[w := Busy(t, stage)];
    forall v: nat | v < |workers'|
      ensures WorkerOk(nio, cmds, status', v, workers'[v])
    {
      assert WorkerOk(nio, cmds, status, v, workers[v]);
    }
  }

  lemma FinishWorkers(nio: nat, cmds: seq<seq<Cmd>>, status: Statuses, workers: seq<Worker>, w: nat, ret: int)
    requires WorkersOk(nio, cmds, status, workers) && w < |workers| && workers[w].Busy?
    ensures var t := workers[w].task;
            && t in status && status[t].Pushed?
            && WorkersOk(nio, cmds, status[t := Pushed(status[t].k, Done(ret))], workers[w := Waiting])
  {
    var t := workers[w].task;
    assert WorkerOk(nio, cmds, status, w, workers[w]);
    var status', workers' := status[t := Pushed(status[t].k, Done(ret))], workers[w := Waiting];
    forall v: nat | v < |workers'|
      ensures WorkerOk(nio, cmds, status', v, workers'[v])
    {
      assert WorkerOk(nio, cmds, status, v, workers[v]);
    }
  }

  /** Counters of all requests when one command changes, given what happens to its own. */
  lemma CountersKeep(s: Sys, s': Sys, t: Task, x: Status)
    requires CountersOk(s) && t in s.status && t.req < |s.cmds|
    requires s'.cmds == s.cmds && s'.status == s.status[t := x]
    requires |s'.fails| == |s'.completed| == |s'.callbacks| == |s.cmds|
    requires forall r: nat :: r < |s.cmds| && r != t.req ==>
               s'.fails[r] == s.fails[r] && s'.completed[r] == s.completed[r] && s'.callbacks[r] == s.callbacks[r]
    requires var r := t.req;
             ReqOk(s'.status, r, |s.cmds[r]|, s'.fails[r], s'.completed[r], s'.callbacks[r])
    ensures CountersOk(s')
  {
    forall r: nat | r < |s.cmds|
      ensures ReqOk(s'.status, r, |s.cmds[r]|, s'.fails[r], s'.completed[r], s'.callbacks[r])
    {
      if r != t.req {
        QuietKeeps(s.status, t, x, r, |s.cmds[r]|, s.fails[r], s.completed[r], s.callbacks[r]);
      }
    }
  }

  lemma MovePlaces(s: Sys, w: nat, stage: Stage)
    requires PlacesOk(s) && HeldAt(s, w)
    ensures PlacesOk(Move(s, w, stage))
  {
    assert WorkerOk(s.nio, s.cmds, s.status, w, s.workers[w]);
    ForwardKeeps(s.nio, s.cmds, s.pushed, s.status, s.log, s.pos, s.workers[w].task, Held(w, stage));
    MoveWorkers(s.nio, s.cmds, s.status, s.workers, w, stage);
  }

  /** A busy worker's command is at the worker's stage. */
  lemma HeldStatus(s: Sys, w: nat)
    requires PlacesOk(s) && HeldAt(s, w)
    ensures var t := s.workers[w].task;
            && s.status[t].ph == Held(w, s.workers[w].stage)
            && t.req < |s.cmds| && t.idx < |s.cmds[t.req]|
  {
    assert WorkerOk(s.nio, s.cmds, s.status, w, s.workers[w]);
  }

  /** The worker's command is where the worker is, and belongs to a request. */
  predicate AtStage(s: Sys, w: nat) {
    && HeldAt(s, w)
    && var t := s.workers[w].task;
       && s.status[t].ph == Held(w, s.workers[w].stage)
       && t.req < |s.cmds| && t.idx < |s.cmds[t.req]|
  }

  lemma ExecuteCounters(s: Sys, w: nat, ret: int)
    requires CountersOk(s) && AtStage(s, w) && Enabled(s, Execute(w, ret))
    ensures CountersOk(Apply(s, Execute(w, ret)))
  {
    var t := s.workers[w].task;
    var r, x := t.req, Pushed(s.status[t].k, Held(w, Ran(ret)));
    QuietKeeps(s.status, t, x, r, |s.cmds[r]|, s.fails[r], s.completed[r], s.callbacks[r]);
    CountersKeep(s, Apply(s, Execute(w, ret)), t, x);
  }

  lemma ReportCounters(s: Sys, w: nat)
    requires CountersOk(s) && AtStage(s, w) && Enabled(s, Report(w))
    ensures CountersOk(Apply(s, Report(w)))
  {
    var t, ret := s.workers[w].task, s.workers[w].stage.ret;
    var r, x := t.req, Pushed(s.status[t].k, Held(w, Reported(ret)));
    if ret == -1 {
      FailureKeeps(s.status, t, x, |s.cmds[r]|, s.fails[r], s.completed[r], s.callbacks[r]);
    } else {
      QuietKeeps(s.status, t, x, r, |s.cmds[r]|, s.fails[r], s.completed[r], s.callbacks[r]);
    }
    CountersKeep(s, Apply(s, Report(w)), t, x);
  }

  lemma CountUpCounters(s: Sys, w: nat)
    requires CountersOk(s) && AtStage(s, w) && Enabled(s, CountUp(w))
    ensures CountersOk(Apply(s, CountUp(w)))
  {
    var t := s.workers[w].task;
    var r := t.req;
    var x := Pushed(s.status[t].k, Held(w, Counted(s.workers[w].stage.ret, s.completed[r])));
    CountKeeps(s.status, t, x, |s.cmds[r]|, s.fails[r], s.completed[r], s.callbacks[r]);
    CountersKeep(s, Apply(s, CountUp(w)), t, x);
  }

  lemma FinishCounters(s: Sys, w: nat)
    requires CountersOk(s) && AtStage(s, w) && Enabled(s, Finish(w))
    ensures CountersOk(Apply(s, Finish(w)))
  {
    var t := s.workers[w].task;
    var r, x := t.req, Pushed(s.status[t].k, Done(s.workers[w].stage.ret));
    FinishKeeps(s.status, t, x, |s.cmds[r]|, s.fails[r], s.completed[r], s.callbacks[r]);
    CountersKeep(s, Apply(s, Finish(w)), t, x);
  }

  lemma MovedPlaces(s: Sys, s': Sys, w: nat, stage: Stage)
    requires PlacesOk(s) && HeldAt(s, w)
    requires s'.(fails := s.fails, completed := s.completed) == Move(s, w, stage)
    ensures PlacesOk(s')
  {
    MovePlaces(s, w, stage);
  }

  lemma FinishPlaces(s: Sys, w: nat)
    requires PlacesOk(s) && Enabled(s, Finish(w))
    ensures PlacesOk(Apply(s, Finish(w)))
  {
    var ret := s.workers[w].stage.ret;
    assert WorkerOk(s.nio, s.cmds, s.status, w, s.workers[w]);
    ForwardKeeps(s.nio, s.cmds, s.pushed, s.status, s.log, s.pos, s.workers[w].task, Done(ret));
    FinishWorkers(s.nio, s.cmds, s.status, s.workers, w, ret);
  }

  /** The four steps of a busy worker. */
  lemma WorkKeeps(s: Sys, step: Step)
    requires Inv(s) && Enabled(s, step)
    requires step.Execute? || step.Report? || step.CountUp? || step.Finish?
    ensures Inv(Apply(s, step))
  {
    HeldStatus(s, step.w);
    match step
    case Execute(w, ret) =>
      MovedPlaces(s, Apply(s, step), w, Ran(ret));
      ExecuteCounters(s, w, ret);
    case Report(w) =>
      MovedPlaces(s, Apply(s, step), w, Reported(s.workers[w].stage.ret));
      ReportCounters(s, w);
    case CountUp(w) =>
      MovedPlaces(s, Apply(s, step), w, Counted(s.workers[w].stage.ret, s.completed[s.workers[w].task.req]));
      CountUpCounters(s, w);
    case Finish(w) =>
      FinishPlaces(s, w);
      FinishCounters(s, w);
  }

  // -------------------------------------------------------- pop and push

  /** The first job of a queue is the first unpopped entry of its log, and still waiting. */
  lemma HeadOfQueue(s: Sys, q: nat)
    requires PlacesOk(s) && q <= s.nio && s.queues[q] != [] && s.queues[q][0].Job?
    ensures var t := s.queues[q][0].task;
            && s.pos[q] < |s.log[q]| && s.log[q][s.pos[q]] == t
            && t in s.status && s.status[t] == Pushed(s.pos[q], InQueue) && RouteOf(s.nio, s.cmds, t) == q
    ensures Jobs(s.queues[q][1..]) == s.log[q][s.pos[q] + 1..]
  {
    var t, p := s.queues[q][0].task, s.pos[q];
    assert Jobs(s.queues[q]) == [t] + Jobs(s.queues[q][1..]);
    assert s.log[q][p..][0] == t && s.log[q][p..][1..] == s.log[q][p + 1..];
    assert LogEntryOk(s.nio, s.cmds, s.status, s.log, q, p);
  }

  lemma PopQueues(s: Sys, q: nat)
    requires PlacesOk(s) && q <= s.nio && s.queues[q] != []
    ensures var job := s.queues[q][0].Job?;
            QueuesOk(s.nio, s.queues[q := s.queues[q][1..]], s.log,
                     if job then s.pos[q := s.pos[q] + 1] else s.pos)
  {
    if s.queues[q][0].Job? {
      HeadOfQueue(s, q);
    }
  }

  /** Popping a job: the first command still waiting in its queue becomes the worker's. */
  lemma PopStatus(s: Sys, q: nat, w: nat)
    requires PlacesOk(s) && q <= s.nio && s.queues[q] != [] && s.queues[q][0].Job?
    ensures var t := s.queues[q][0].task;
            var status' := s.status[t := Pushed(s.pos[q], Held(w, Popped))];
            && TasksOk(s.cmds, status') && PushedOk(s.cmds, s.pushed, status')
            && Logged(s.nio, s.cmds, status', s.log)
            && WaitingOk(s.nio, s.cmds, status', s.pos[q := s.pos[q] + 1])
  {
    HeadOfQueue(s, q);
    var t := s.queues[q][0].task;
    var status' := s.status[t := Pushed(s.pos[q], Held(w, Popped))];
    forall p: nat, k: nat | p < |s.log| && k < |s.log[p]|
      ensures LogEntryOk(s.nio, s.cmds, status', s.log, p, k)
    {
      assert LogEntryOk(s.nio, s.cmds, s.status, s.log, p, k);
    }
    forall u | u in status' && status'[u].Pushed?
      ensures status'[u].ph.InQueue? <==> status'[u].k >= s.pos[q := s.pos[q] + 1][RouteBounded(s.nio, s.cmds, u)]
    {
      assert LogHas(s.nio, s.cmds, s.log, u, s.status[u].k);
    }
  }

  lemma PopWorkers(s: Sys, w: nat, t: Task)
    requires PlacesOk(s) && w < |s.workers| && s.workers[w].Waiting?
    requires t in s.status && s.status[t].Pushed? && s.status[t].ph.InQueue?
    requires RouteOf(s.nio, s.cmds, t) == QueueOf(s.nio, w)
    ensures WorkersOk(s.nio, s.cmds, s.status[t := Pushed(s.status[t].k, Held(w, Popped))],
                      s.workers[w := Busy(t, Popped)])
  {
    var status', workers' := s.status[t := Pushed(s.status[t].k, Held(w, Popped))], s.workers[w := Busy(t, Popped)];
    forall v: nat | v < |workers'|
      ensures WorkerOk(s.nio, s.cmds, status', v, workers'[v])
    {
      assert WorkerOk(s.nio, s.cmds, s.status, v, s.workers[v]);
    }
  }

  lemma ExitWorkers(s: Sys, w: nat)
    requires PlacesOk(s) && w < |s.workers| && s.workers[w].Waiting?
    ensures WorkersOk(s.nio, s.cmds, s.status, s.workers[w := Exited])
  {
    var workers' := s.workers[w := Exited];
    forall v: nat | v < |workers'|
      ensures WorkerOk(s.nio, s.cmds, s.status, v, workers'[v])
    {
      assert WorkerOk(s.nio, s.cmds, s.status, v, s.workers[v]);
    }
  }

  lemma PopPlaces(s: Sys, w: nat)
    requires PlacesOk(s) && Enabled(s, PopItem(w))
    ensures PlacesOk(Apply(s, PopItem(w)))
  {
    var q := QueueOf(s.nio, w);
    PopQueues(s, q);
    if s.queues[q][0].Sentinel? {
      ExitWorkers(s, w);
    } else {
      HeadOfQueue(s, q);
      PopStatus(s, q, w);
      PopWorkers(s, w, s.queues[q][0].task);
    }
  }

  lemma PopCounters(s: Sys, w: nat)
    requires CountersOk(s) && Enabled(s, PopItem(w))
    requires var q := s.queues[QueueOf(s.nio, w)];
             q[0].Job? ==> q[0].task.req < |s.cmds| && s.status[q[0].task].ph.InQueue?
    ensures CountersOk(Apply(s, PopItem(w)))
  {
    var item := s.queues[QueueOf(s.nio, w)][0];
    if item.Job? {
      var t := item.task;
      var r, x := t.req, Pushed(s.status[t].k, Held(w, Popped));
      QuietKeeps(s.status, t, x, r, |s.cmds[r]|, s.fails[r], s.completed[r], s.callbacks[r]);
      CountersKeep(s, Apply(s, PopItem(w)), t, x);
    }
  }

  lemma PopKeeps(s: Sys, w: nat)
    requires Inv(s) && Enabled(s, PopItem(w))
    ensures Inv(Apply(s, PopItem(w)))
  {
    var q := QueueOf(s.nio, w);
    if s.queues[q][0].Job? { HeadOfQueue(s, q); }
    PopPlaces(s, w);
    PopCounters(s, w);
  }

  /** Pushing: the next command of a request goes to the end of its queue and of its log. */
  lemma PushPlaces(s: Sys, r: nat)
    requires PlacesOk(s) && Enabled(s, PushNext(r))
    ensures PlacesOk(Apply(s, PushNext(r)))
    ensures Task(r, s.pushed[r]) in s.status && s.status[Task(r, s.pushed[r])].Unpushed?
  {
    var t, s' := Task(r, s.pushed[r]), Apply(s, PushNext(r));
    var q := RouteBounded(s.nio, s.cmds, t);
    assert t in s.status && s.status[t].Unpushed?;
    assert TasksOk(s'.cmds, s'.status) && PushedOk(s'.cmds, s'.pushed, s'.status);
    assert Logged(s.nio, s.cmds, s'.status, s'.log) by { PushLogged(s, t, q); }
    assert QueuesOk(s.nio, s'.queues, s'.log, s'.pos) by { PushQueues(s, t, q); }
    assert WaitingOk(s.nio, s.cmds, s'.status, s'.pos);
    assert WorkersOk(s.nio, s.cmds, s'.status, s'.workers) by { PushWorkers(s, t, |s.log[q]|); }
  }

  lemma PushLogged(s: Sys, t: Task, q: nat)
    requires PlacesOk(s) && q == RouteOf(s.nio, s.cmds, t) && q <= s.nio
    requires t in s.status && s.status[t].Unpushed?
    ensures Logged(s.nio, s.cmds, s.status[t := Pushed(|s.log[q]|, InQueue)], s.log[q := s.log[q] + [t]])
  {
    var status', log' := s.status[t := Pushed(|s.log[q]|, InQueue)], s.log[q := s.log[q] + [t]];
    forall p: nat, k: nat | p < |log'| && k < |log'[p]|
      ensures LogEntryOk(s.nio, s.cmds, status', log', p, k)
    {
      if !(p == q && k == |s.log[q]|) {
        assert LogEntryOk(s.nio, s.cmds, s.status, s.log, p, k);
      }
    }
    forall u | u in status' && status'[u].Pushed?
      ensures LogHas(s.nio, s.cmds, log', u, status'[u].k)
    {
      if u != t {
        assert LogHas(s.nio, s.cmds, s.log, u, s.status[u].k);
      }
    }
  }

  lemma PushQueues(s: Sys, t: Task, q: nat)
    requires QueuesOk(s.nio, s.queues, s.log, s.pos) && q <= s.nio
    ensures QueuesOk(s.nio, s.queues[q := s.queues[q] + [Job(t)]], s.log[q := s.log[q] + [t]], s.pos)
  {
    JobsAppend(s.queues[q], Job(t));
    assert (s.log[q] + [t])[s.pos[q]..] == s.log[q][s.pos[q]..] + [t];
  }

  lemma PushWorkers(s: Sys, t: Task, k: nat)
    requires PlacesOk(s) && t in s.status && s.status[t].Unpushed?
    ensures WorkersOk(s.nio, s.cmds, s.status[t := Pushed(k, InQueue)], s.workers)
  {
    forall v: nat | v < |s.workers|
      ensures WorkerOk(s.nio, s.cmds, s.status[t := Pushed(k, InQueue)], v, s.workers[v])
    {
      assert WorkerOk(s.nio, s.cmds, s.status, v, s.workers[v]);
    }
  }

  lemma PushKeeps(s: Sys, r: nat)
    requires Inv(s) && Enabled(s, PushNext(r))
    ensures Inv(Apply(s, PushNext(r)))
  {
    var t, s' := Task(r, s.pushed[r]), Apply(s, PushNext(r));
    PushPlaces(s, r);
    var x := Pushed(|s.log[RouteBounded(s.nio, s.cmds, t)]|, InQueue);
    assert CountersOk(s') by {
      QuietKeeps(s.status, t, x, r, |s.cmds[r]|, s.fails[r], s.completed[r], s.callbacks[r]);
      CountersKeep(s, s', t, x);
    }
  }

  // ------------------------------------------------------ submit and stop

  lemma RouteExtend(nio: nat, cmds: seq<seq<Cmd>>, cs: seq<Cmd>, t: Task)
    requires t.req < |cmds|
    ensures RouteOf(nio, cmds + [cs], t) == RouteOf(nio, cmds, t)
  {
  }

  /** A request's counters depend only on its own commands. */
  lemma ReqAgree(status: Statuses, status': Statuses, r: nat, n: nat, fails: nat, completed: nat, callbacks: seq<nat>)
    requires ReqOk(status, r, n, fails, completed, callbacks)
    requires forall i: nat :: i < n ==> (Task(r, i) in status <==> Task(r, i) in status')
    requires forall i: nat :: i < n && Task(r, i) in status ==> status[Task(r, i)] == status'[Task(r, i)]
    ensures ReqOk(status', r, n, fails, completed, callbacks)
  {
    assert CountedOf(status', r, n) == CountedOf(status, r, n);
    assert FailuresOf(status', r, n) == FailuresOf(status, r, n);
    forall i: nat, p: nat | i < n
      ensures Deciding(status', Task(r, i), p) == Deciding(status, Task(r, i), p)
    {
    }
    assert Numbered(status', r, n, completed);
    assert NoneDeciding(status', r, n, n - 1) == NoneDeciding(status, r, n, n - 1) by {
      if !NoneDeciding(status, r, n, n - 1) {
        var i: nat :| i < n && n - 1 >= 0 && Deciding(status, Task(r, i), n - 1);
        assert Deciding(status', Task(r, i), n - 1);
      }
    }
  }

  lemma NewRequest(status: Statuses, r: nat, n: nat)
    requires forall i: nat :: i < n ==> Task(r, i) in status && status[Task(r, i)].Unpushed?
    ensures ReqOk(status, r, n, 0, 0, [])
  {
    assert CountedOf(status, r, n) == {} && FailuresOf(status, r, n) == {};
  }

  lemma SubmitCounters(s: Sys, cs: seq<Cmd>)
    requires TasksOk(s.cmds, s.status) && CountersOk(s) && Enabled(s, Submit(cs))
    ensures CountersOk(Apply(s, Submit(cs)))
  {
    var s', m := Apply(s, Submit(cs)), |s.cmds|;
    forall r: nat | r < |s'.cmds|
      ensures ReqOk(s'.status, r, |s'.cmds[r]|, s'.fails[r], s'.completed[r], s'.callbacks[r])
    {
      if r < m {
        ReqAgree(s.status, s'.status, r, |s.cmds[r]|, s.fails[r], s.completed[r], s.callbacks[r]);
      } else {
        NewRequest(s'.status, m, |cs|);
      }
    }
  }

  lemma SubmitLogged(s: Sys, cs: seq<Cmd>)
    requires PlacesOk(s) && Enabled(s, Submit(cs))
    ensures var s' := Apply(s, Submit(cs));
            Logged(s.nio, s'.cmds, s'.status, s.log) && WaitingOk(s.nio, s'.cmds, s'.status, s.pos)
  {
    var s' := Apply(s, Submit(cs));
    forall q: nat, k: nat | q < |s.log| && k < |s.log[q]|
      ensures LogEntryOk(s.nio, s'.cmds, s'.status, s.log, q, k)
    {
      assert LogEntryOk(s.nio, s.cmds, s.status, s.log, q, k);
      RouteExtend(s.nio, s.cmds, cs, s.log[q][k]);
    }
    forall t | t in s'.status && s'.status[t].Pushed?
      ensures LogHas(s.nio, s'.cmds, s.log, t, s'.status[t].k)
      ensures s'.status[t].ph.InQueue? <==> s'.status[t].k >= s.pos[RouteBounded(s.nio, s'.cmds, t)]
    {
      assert t in s.status && LogHas(s.nio, s.cmds, s.log, t, s.status[t].k);
      RouteExtend(s.nio, s.cmds, cs, t);
    }
  }

  lemma SubmitWorkers(s: Sys, cs: seq<Cmd>)
    requires PlacesOk(s) && Enabled(s, Submit(cs))
    ensures var s' := Apply(s, Submit(cs));
            WorkersOk(s.nio, s'.cmds, s'.status, s.workers)
  {
    var s' := Apply(s, Submit(cs));
    forall w: nat | w < |s.workers|
      ensures WorkerOk(s.nio, s'.cmds, s'.status, w, s.workers[w])
    {
      assert WorkerOk(s.nio, s.cmds, s.status, w, s.workers[w]);
      if s.workers[w].Busy? {
        RouteExtend(s.nio, s.cmds, cs, s.workers[w].task);
      }
    }
    forall t | t in s'.status && s'.status[t].Pushed? && s'.status[t].ph.Held?
      ensures s'.status[t].ph.w < |s.workers| && s.workers[s'.status[t].ph.w] == Busy(t, s'.status[t].ph.stage)
    {
      assert t in s.status;
    }
  }

  lemma SubmitKeeps(s: Sys, cs: seq<Cmd>)
    requires Inv(s) && Enabled(s, Submit(cs))
    ensures Inv(Apply(s, Submit(cs)))
  {
    var s' := Apply(s, Submit(cs));
    assert TasksOk(s'.cmds, s'.status) && PushedOk(s'.cmds, s'.pushed, s'.status);
    assert Logged(s.nio, s'.cmds, s'.status, s.log) && WaitingOk(s.nio, s'.cmds, s'.status, s.pos) by {
      SubmitLogged(s, cs);
    }
    assert WorkersOk(s.nio, s'.cmds, s'.status, s.workers) by { SubmitWorkers(s, cs); }
    assert CountersOk(s') by { SubmitCounters(s, cs); }
  }

  lemma SentinelQueues(nio: nat, queues: seq<seq<Item>>, log: seq<seq<Task>>, pos: seq<nat>, q: nat)
    requires QueuesOk(nio, queues, log, pos) && q <= nio
    ensures QueuesOk(nio, queues[q := queues[q] + [Sentinel]], log, pos)
  {
    JobsAppend(queues[q], Sentinel);
  }

  lemma StopPushKeeps(s: Sys)
    requires Inv(s) && Enabled(s, StopPush)
    ensures Inv(Apply(s, StopPush))
  {
    var s' := Apply(s, StopPush);
    assert s' == s.(queues := s'.queues, stop := s'.stop);
    assert QueuesOk(s.nio, s'.queues, s.log, s.pos) by {
      SentinelQueues(s.nio, s.queues, s.log, s.pos, if s.stop.PushIo? && s.stop.k < s.nio then s.stop.k else s.nio);
    }
  }

  /** Every step of the protocol keeps the invariant. */
  lemma StepKeeps(s: Sys, step: Step)
    requires Inv(s) && Enabled(s, step)
    ensures Inv(Apply(s, step))
  {
    match step
    case Submit(cs) => SubmitKeeps(s, cs);
    case PushNext(r) => PushKeeps(s, r);
    case PopItem(w) => PopKeeps(s, w);
    case StopBegin =>
    case StopPush => StopPushKeeps(s);
    case StopJoin =>
    case _ => WorkKeeps(s, step);
  }
}
