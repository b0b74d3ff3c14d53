/** The asynchronous I/O protocol (src/aio.cpp): submitters, one queue per positionless worker,
    one queue shared by the positioned workers, completion counting and shutdown.
    Every step is one atomic action of one thread. */
module Aio {
  import opened Bits

  const CMD_MIN_PIO := 4

  datatype Cmd = Cmd(op: int, fd: int)

  datatype Task = Task(req: nat, idx: nat)

  /** What travels through a queue; a sentinel is a RequestEx without a request. */
  datatype Item = Sentinel | Job(task: Task)

  /** How far a worker has come in ProcessRequest. */
  datatype Stage = Popped | Ran(ret: int) | Reported(ret: int) | Counted(ret: int, prev: nat)

  datatype Worker = Waiting | Busy(task: Task, stage: Stage) | Exited

  datatype Phase = InQueue | Held(w: nat, stage: Stage) | Done(ret: int)

  /** The life of a command; k is its place among everything ever pushed to its queue. */
  datatype Status = Unpushed | Pushed(k: nat, ph: Phase)

  /** Where Stop stands: started, pushing sentinels, joining. */
  datatype Stop = Started | PushIo(k: nat) | JoinIo | PushPio(k: nat) | JoinPio | Stopped

  type Statuses = map<Task, Status>

  /** The threads' shared state. fails, completed and callbacks belong to a request; a callback is
      recorded with the failure count it was given. status, log and pos are history: log holds
      everything ever pushed to a queue, pos how much of it has been popped. */
  datatype Sys = Sys(
    nio: nat, npio: nat,
    cmds: seq<seq<Cmd>>, pushed: seq<nat>,
    fails: seq<nat>, completed: seq<nat>, callbacks: seq<seq<nat>>,
    queues: seq<seq<Item>>, workers: seq<Worker>, stop: Stop,
    status: Statuses, log: seq<seq<Task>>, pos: seq<nat>)

  datatype Step =
    | Submit(cmds: seq<Cmd>)
    | PushNext(r: nat)
    | PopItem(w: nat)
    | Execute(w: nat, ret: int)
    | Report(w: nat)
    | CountUp(w: nat)
    | Finish(w: nat)
    | StopBegin
    | StopPush
    | StopJoin

  /** fd is converted to size_t before the remainder is taken. */
  function Route(nio: nat, c: Cmd): nat {
    if c.op < CMD_MIN_PIO && nio > 0 then (c.fd % TWO64) % nio else nio
  }

  function RouteOf(nio: nat, cmds: seq<seq<Cmd>>, t: Task): nat {
    if t.req < |cmds| && t.idx < |cmds[t.req]| then Route(nio, cmds[t.req][t.idx]) else nio
  }

  lemma RouteWithin(nio: nat, cmds: seq<seq<Cmd>>, t: Task)
    ensures RouteOf(nio, cmds, t) <= nio
  {
  }

  /** The queue a worker pops from. */
  function QueueOf(nio: nat, w: nat): nat {
    if w < nio then w else nio
  }

  function Jobs(q: seq<Item>): seq<Task> {
    if q == [] then [] else if q[0].Sentinel? then Jobs(q[1..]) else [q[0].task] + Jobs(q[1..])
  }

  function Sentinels(q: seq<Item>): nat {
    if q == [] then 0 else (if q[0].Sentinel? then 1 else 0) + Sentinels(q[1..])
  }

  // ------------------------------------------------------------------ steps

  predicate HeldAt(s: Sys, w: nat) {
    && w < |s.workers| && s.workers[w].Busy? && s.workers[w].task in s.status
    && s.status[s.workers[w].task].Pushed?
    && s.workers[w].task.req < |s.cmds| == |s.fails| == |s.completed| == |s.callbacks|
  }

  predicate Enabled(s: Sys, step: Step) {
    match step
    case Submit(cs) => s.stop.Started? && |cs| < TWO32
    case PushNext(r) =>
      && r < |s.cmds| && r < |s.pushed| && s.pushed[r] < |s.cmds[r]|
      && |s.queues| == |s.log| == s.nio + 1
    case PopItem(w) =>
      && w < |s.workers| && s.workers[w].Waiting? && |s.queues| == |s.pos| == s.nio + 1
      && var q := s.queues[QueueOf(s.nio, w)];
         q != [] && (q[0].Job? ==> q[0].task in s.status && s.status[q[0].task].Pushed?)
    case Execute(w, _) => HeldAt(s, w) && s.workers[w].stage.Popped?
    case Report(w) => HeldAt(s, w) && s.workers[w].stage.Ran?
    case CountUp(w) => HeldAt(s, w) && s.workers[w].stage.Reported?
    case Finish(w) => HeldAt(s, w) && s.workers[w].stage.Counted?
    case StopBegin =>
      // no Submit is past its state check
      s.stop.Started? && |s.pushed| == |s.cmds| && forall r :: 0 <= r < |s.cmds| ==> s.pushed[r] == |s.cmds[r]|
    case StopPush => (s.stop.PushIo? || s.stop.PushPio?) && |s.queues| == s.nio + 1
    case StopJoin =>
      || (s.stop.JoinIo? && forall w :: 0 <= w < s.nio && w < |s.workers| ==> s.workers[w].Exited?)
      || (s.stop.JoinPio? && forall w :: s.nio <= w < |s.workers| ==> s.workers[w].Exited?)
  }

  /** A worker and its task move on together. */
  function Move(s: Sys, w: nat, stage: Stage): Sys
    requires HeldAt(s, w)
  {
    var t := s.workers[w].task;
    s.(workers := s.workers[w := Busy(t, stage)],
       status := s.status[t := Pushed(s.status[t].k, Held(w, stage))])
  }

  function Apply(s: Sys, step: Step): Sys
    requires Enabled(s, step)
  {
    match step
    case Submit(cs) =>
      var r := |s.cmds|;
      s.(cmds := s.cmds + [cs], pushed := s.pushed + [0], fails := s.fails + [0],
         completed := s.completed + [0], callbacks := s.callbacks + [[]],
         status := s.status + map i: nat | i < |cs| :: Task(r, i) := Unpushed)
    case PushNext(r) =>
      var t := Task(r, s.pushed[r]);
      var q := Route(s.nio, s.cmds[r][s.pushed[r]]);
      RouteWithin(s.nio, s.cmds, t);
      s.(pushed := s.pushed[r := s.pushed[r] + 1],
         queues := s.queues[q := s.queues[q] + [Job(t)]],
         status := s.status[t := Pushed(|s.log[q]|, InQueue)],
         log := s.log[q := s.log[q] + [t]])
    case PopItem(w) =>
      var q := QueueOf(s.nio, w);
      var item := s.queues[q][0];
      var s' := s.(queues := s.queues[q := s.queues[q][1..]]);
      if item.Sentinel? then s'.(workers := s.workers[w := Exited])
      else s'.(workers := s.workers[w := Busy(item.task, Popped)],
               status := s.status[item.task := Pushed(s.status[item.task].k, Held(w, Popped))],
               pos := s.pos[q := s.pos[q] + 1])
    case Execute(w, ret) => Move(s, w, Ran(ret))
    case Report(w) =>
      var r, ret := s.workers[w].task.req, s.workers[w].stage.ret;
      Move(s, w, Reported(ret)).(fails := s.fails[r := s.fails[r] + (if ret == -1 then 1 else 0)])
    case CountUp(w) =>
      var r := s.workers[w].task.req;
      Move(s, w, Counted(s.workers[w].stage.ret, s.completed[r])).
        (completed := s.completed[r := s.completed[r] + 1])
    case Finish(w) =>
      var t, st := s.workers[w].task, s.workers[w].stage;
      var r := t.req;
      s.(workers := s.workers[w := Waiting],
         status := s.status[t := Pushed(s.status[t].k, Done(st.ret))],
         callbacks := if st.prev == |s.cmds[r]| - 1
                      then s.callbacks[r := s.callbacks[r] + [s.fails[r]]] else s.callbacks)
    case StopBegin => s.(stop := PushIo(0))
    case StopPush =>
      var k := s.stop.k;
      if s.stop.PushIo? then
        if k < s.nio then s.(queues := s.queues[k := s.queues[k] + [Sentinel]], stop := PushIo(k + 1))
        else s.(stop := JoinIo)
      else
        if k < s.npio then s.(queues := s.queues[s.nio := s.queues[s.nio] + [Sentinel]], stop := PushPio(k + 1))
        else s.(stop := JoinPio)
    case StopJoin => s.(stop := if s.stop.JoinIo? then PushPio(0) else Stopped)
  }

  // -------------------------------------------------- counting one request

  predicate IsCounted(st: Status) {
    st.Pushed? && (st.ph.Done? || (st.ph.Held? && st.ph.stage.Counted?))
  }

  predicate IsFailure(st: Status) {
    st.Pushed? && ((st.ph.Done? && st.ph.ret == -1) ||
                   (st.ph.Held? && (st.ph.stage.Reported? || st.ph.stage.Counted?) && st.ph.stage.ret == -1))
  }

  /** The command is about to decide on the callback, having been counted as number prev. */
  predicate Deciding(status: Statuses, t: Task, prev: nat) {
    t in status && status[t].Pushed? && status[t].ph.Held? && status[t].ph.stage.Counted? &&
    status[t].ph.stage.prev == prev
  }

  function CountedOf(status: Statuses, r: nat, n: nat): set<nat> {
    set i: nat | i < n && Task(r, i) in status && IsCounted(status[Task(r, i)])
  }

  function FailuresOf(status: Statuses, r: nat, n: nat): set<nat> {
    set i: nat | i < n && Task(r, i) in status && IsFailure(status[Task(r, i)])
  }

  /** Commands that are deciding have numbers below the counter, no two the same. */
  ghost predicate Numbered(status: Statuses, r: nat, n: nat, completed: nat) {
    && (forall i: nat, p: nat :: i < n && Deciding(status, Task(r, i), p) ==> p < completed)
    && (forall i: nat, j: nat, p: nat ::
          i < n && j < n && Deciding(status, Task(r, i), p) && Deciding(status, Task(r, j), p) ==> i == j)
  }

  ghost predicate NoneDeciding(status: Statuses, r: nat, n: nat, p: int) {
    forall i: nat :: i < n ==> !(p >= 0 && Deciding(status, Task(r, i), p))
  }

  /** The counters of request r with n commands say what has happened to its commands; the callback
      has been made exactly if all are counted and the last one counted has decided. */
  ghost predicate ReqOk(status: Statuses, r: nat, n: nat, fails: nat, completed: nat, callbacks: seq<nat>) {
    && completed == |CountedOf(status, r, n)|
    && fails == |FailuresOf(status, r, n)|
    && Numbered(status, r, n, completed)
    && callbacks == if n > 0 && completed == n && NoneDeciding(status, r, n, n - 1) then [fails] else []
  }
}
