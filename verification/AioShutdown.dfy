/** Stop (src/aio.cpp): sentinels come behind every command, each worker takes exactly one,
    and when Stop has joined the workers nothing is left undone. */
module AioShutdown {
  import opened Collections
  import opened Aio
  import opened AioCounting
  import opened AioProtocol

  function ExitedOf(nio: nat, workers: seq<Worker>, q: nat): set<nat> {
    set w: nat | w < |workers| && workers[w].Exited? && QueueOf(nio, w) == q
  }

  /** Behind a sentinel there are only sentinels. */
  predicate SentinelsLast(q: seq<Item>) {
    forall k, l :: 0 <= k < l < |q| && q[k].Sentinel? ==> q[l].Sentinel?
  }

  /** How many sentinels Stop has pushed to queue q. */
  function Sent(stop: Stop, nio: nat, npio: nat, q: nat): nat {
    if q < nio then
      match stop
      case Started => 0
      case PushIo(k) => if q < k then 1 else 0
      case _ => 1
    else
      match stop
      case PushPio(k) => k
      case JoinPio => npio
      case Stopped => npio
      case _ => 0
  }

  predicate IoJoined(stop: Stop) {
    stop.PushPio? || stop.JoinPio? || stop.Stopped?
  }

  ghost predicate QueueShut(s: Sys, q: nat)
    requires q < |s.queues|
  {
    var exited := ExitedOf(s.nio, s.workers, q);
    && Sentinels(s.queues[q]) + |exited| == Sent(s.stop, s.nio, s.npio, q)
    && SentinelsLast(s.queues[q])
    && (exited != {} ==> Jobs(s.queues[q]) == [])
  }

  ghost predicate ShutOk(s: Sys) {
    && |s.queues| == s.nio + 1
    && (forall q: nat :: q < |s.queues| ==> QueueShut(s, q))
    && (!s.stop.Started? ==> |s.pushed| == |s.cmds| && forall r :: 0 <= r < |s.cmds| ==> s.pushed[r] == |s.cmds[r]|)
    && (s.stop.PushIo? ==> s.stop.k <= s.nio) && (s.stop.PushPio? ==> s.stop.k <= s.npio)
    && (IoJoined(s.stop) ==> forall w :: 0 <= w < s.nio && w < |s.workers| ==> s.workers[w].Exited?)
    && (s.stop.Stopped? ==> forall w :: s.nio <= w < |s.workers| ==> s.workers[w].Exited?)
  }

  // -------------------------------------------------------- lists of items

  lemma {:induction false} SentinelsAppend(q: seq<Item>, item: Item)
    ensures Sentinels(q + [item]) == Sentinels(q) + (if item.Sentinel? then 1 else 0)
  {
    if q == [] {
      assert q + [item] == [item];
    } else {
      SentinelsAppend(q[1..], item);
      assert (q + [item])[1..] == q[1..] + [item];
    }
  }

  lemma {:induction false} NoSentinels(q: seq<Item>)
    requires Sentinels(q) == 0
    ensures forall k :: 0 <= k < |q| ==> q[k].Job?
  {
    if q == [] {
    } else {
      NoSentinels(q[1..]);
      assert forall k :: 1 <= k < |q| ==> q[k] == q[1..][k - 1];
    }
  }

  lemma {:induction false} OnlySentinels(q: seq<Item>)
    requires forall k :: 0 <= k < |q| ==> q[k].Sentinel?
    ensures Jobs(q) == []
  {
    if q == [] {
    } else {
      OnlySentinels(q[1..]);
    }
  }

  lemma {:induction false} EmptyQueue(q: seq<Item>)
    requires Jobs(q) == [] && Sentinels(q) == 0
    ensures q == []
  {
    if q == [] {
    } else {
      EmptyQueue(q[1..]);
    }
  }

  // ----------------------------------------------------------------- steps

  lemma SameExited(nio: nat, workers: seq<Worker>, w: nat, x: Worker, q: nat)
    requires w < |workers| && !workers[w].Exited? && !x.Exited?
    ensures ExitedOf(nio, workers[w := x], q) == ExitedOf(nio, workers, q)
  {
  }

  lemma OneExited(nio: nat, workers: seq<Worker>, w: nat, q: nat)
    requires w < |workers| && !workers[w].Exited?
    ensures ExitedOf(nio, workers[w := Exited], q) ==
            ExitedOf(nio, workers, q) + (if QueueOf(nio, w) == q then {w} else {})
    ensures w !in ExitedOf(nio, workers, q)
  {
  }

  lemma WorkShut(s: Sys, step: Step)
    requires ShutOk(s) && Enabled(s, step)
    requires step.Execute? || step.Report? || step.CountUp? || step.Finish?
    ensures ShutOk(Apply(s, step))
  {
    var s', w := Apply(s, step), step.w;
    forall q: nat | q < |s'.queues|
      ensures QueueShut(s', q)
    {
      assert QueueShut(s, q);
      SameExited(s.nio, s.workers, w, s'.workers[w], q);
      assert s'.workers == s.workers[w := s'.workers[w]];
    }
  }

  /** A command can only be pushed while Stop has not begun. */
  lemma PushShut(s: Sys, r: nat)
    requires ShutOk(s) && Enabled(s, PushNext(r))
    ensures ShutOk(Apply(s, PushNext(r)))
  {
    var s', t := Apply(s, PushNext(r)), Task(r, s.pushed[r]);
    assert s.stop.Started?;
    forall q: nat | q < |s'.queues|
      ensures QueueShut(s', q)
    {
      assert QueueShut(s, q);
      NoSentinels(s.queues[q]);
      SentinelsAppend(s.queues[q], Job(t));
      JobsAppend(s.queues[q], Job(t));
    }
  }

  lemma PopJobShut(s: Sys, w: nat)
    requires ShutOk(s) && Enabled(s, PopItem(w)) && s.queues[QueueOf(s.nio, w)][0].Job?
    ensures ShutOk(Apply(s, PopItem(w)))
  {
    var s', p := Apply(s, PopItem(w)), QueueOf(s.nio, w);
    forall q: nat | q < |s'.queues|
      ensures QueueShut(s', q)
    {
      assert QueueShut(s, q);
      SameExited(s.nio, s.workers, w, s'.workers[w], q);
      assert s'.workers == s.workers[w := s'.workers[w]];
    }
  }

  lemma PopSentinelShut(s: Sys, w: nat)
    requires ShutOk(s) && Enabled(s, PopItem(w)) && s.queues[QueueOf(s.nio, w)][0].Sentinel?
    ensures ShutOk(Apply(s, PopItem(w)))
  {
    var s', p := Apply(s, PopItem(w)), QueueOf(s.nio, w);
    forall q: nat | q < |s'.queues|
      ensures QueueShut(s', q)
    {
      assert QueueShut(s, q);
      OneExited(s.nio, s.workers, w, q);
      if q == p {
        OnlySentinels(s.queues[p][1..]);
      }
    }
  }

  lemma StopPushShut(s: Sys)
    requires s.npio >= 1 && ShutOk(s) && Enabled(s, StopPush)
    ensures ShutOk(Apply(s, StopPush))
  {
    var s' := Apply(s, StopPush);
    assert s'.workers == s.workers;
    forall q: nat | q < |s'.queues|
      ensures QueueShut(s', q)
    {
      assert QueueShut(s, q);
      if s'.queues[q] != s.queues[q] {
        SentinelsAppend(s.queues[q], Sentinel);
        JobsAppend(s.queues[q], Sentinel);
      }
    }
  }

  lemma OtherShut(s: Sys, step: Step)
    requires ShutOk(s) && Enabled(s, step) && |s.pushed| == |s.cmds|
    requires step.Submit? || step.StopBegin? || step.StopJoin?
    ensures ShutOk(Apply(s, step))
  {
    var s' := Apply(s, step);
    forall q: nat | q < |s'.queues|
      ensures QueueShut(s', q)
    {
      assert QueueShut(s, q);
    }
  }

  lemma StepShut(s: Sys, step: Step)
    requires Inv(s) && ShutOk(s) && Enabled(s, step)
    ensures ShutOk(Apply(s, step))
  {
    match step
    case PushNext(r) => PushShut(s, r);
    case PopItem(w) =>
      if s.queues[QueueOf(s.nio, w)][0].Job? { PopJobShut(s, w); } else { PopSentinelShut(s, w); }
    case StopPush => StopPushShut(s);
    case Submit(_) => OtherShut(s, step);
    case StopBegin => OtherShut(s, step);
    case StopJoin => OtherShut(s, step);
    case _ => WorkShut(s, step);
  }

  // --------------------------------------------------------------- outcome

  function Range(a: nat, n: nat): (r: set<nat>)
    ensures |r| == n
    ensures forall w: nat :: w in r <==> a <= w < a + n
  {
    if n == 0 then {} else Range(a, n - 1) + {a + n - 1}
  }

  /** The workers of queue q. */
  function WorkersOf(nio: nat, npio: nat, q: nat): set<nat> {
    if q < nio then {q} else Range(nio, npio)
  }

  /** Once the workers of a queue are joined, they have taken all its sentinels, one each,
      and the queue is empty. Stop deletes the positionless queues in such a state. */
  lemma JoinedQueue(s: Sys, q: nat)
    requires Inv(s) && ShutOk(s) && q <= s.nio
    requires if q < s.nio then IoJoined(s.stop) else s.stop.Stopped?
    ensures s.queues[q] == []
    ensures ExitedOf(s.nio, s.workers, q) == WorkersOf(s.nio, s.npio, q)
    ensures Sent(s.stop, s.nio, s.npio, q) == |WorkersOf(s.nio, s.npio, q)|
  {
    var exited := ExitedOf(s.nio, s.workers, q);
    assert QueueShut(s, q);
    forall w: nat
      ensures w in exited <==> w in WorkersOf(s.nio, s.npio, q)
    {
    }
    assert exited == WorkersOf(s.nio, s.npio, q);
    assert q < s.nio ==> q in exited;
    assert q == s.nio ==> s.nio in exited;
    EmptyQueue(s.queues[q]);
  }

  /** When Stop returns, every command ever submitted has been executed to the end. */
  lemma NothingLeft(s: Sys, t: Task)
    requires Inv(s) && ShutOk(s) && s.stop.Stopped? && t in s.status
    ensures s.status[t].Pushed? && s.status[t].ph.Done?
  {
    assert s.status[t].Pushed?;
    var q := RouteBounded(s.nio, s.cmds, t);
    JoinedQueue(s, q);
    assert s.pos[q] == |s.log[q]| by {
      assert Jobs(s.queues[q]) == s.log[q][s.pos[q]..] == [];
    }
    assert LogHas(s.nio, s.cmds, s.log, t, s.status[t].k);
  }

  lemma HasSentinel(q: seq<Item>)
    requires Sentinels(q) > 0
    ensures q != []
  {
  }

  /** The worker can take a step: pop, or go on with its command. */
  predicate CanMove(s: Sys, w: nat) {
    || Enabled(s, PopItem(w)) || Enabled(s, Execute(w, 0)) || Enabled(s, Report(w))
    || Enabled(s, CountUp(w)) || Enabled(s, Finish(w))
  }

  /** A worker that waits for its sentinel will find one. */
  lemma WaitingHasWork(s: Sys, w: nat)
    requires ShutOk(s) && |s.workers| == s.nio + s.npio && w < |s.workers| && !s.workers[w].Exited?
    requires if w < s.nio then s.stop.JoinIo? else s.stop.JoinPio?
    ensures s.queues[QueueOf(s.nio, w)] != []
  {
    var q := QueueOf(s.nio, w);
    var exited, all := ExitedOf(s.nio, s.workers, q), WorkersOf(s.nio, s.npio, q);
    assert QueueShut(s, q);
    assert exited <= all - {w};
    SubsetSize(exited, all - {w});
    HasSentinel(s.queues[q]);
  }

  /** A join never hangs: a worker that has not exited can always move. */
  lemma JoinProgress(s: Sys, w: nat)
    requires Inv(s) && ShutOk(s) && w < |s.workers| && !s.workers[w].Exited?
    requires if w < s.nio then s.stop.JoinIo? else s.stop.JoinPio?
    ensures CanMove(s, w)
  {
    if s.workers[w].Waiting? {
      WaitingHasWork(s, w);
      WaitingCanPop(s, w);
    } else {
      BusyCanMove(s, w);
    }
  }

  lemma WaitingCanPop(s: Sys, w: nat)
    requires Inv(s) && w < |s.workers| && s.workers[w].Waiting? && s.queues[QueueOf(s.nio, w)] != []
    ensures Enabled(s, PopItem(w))
  {
    var q := QueueOf(s.nio, w);
    if s.queues[q][0].Job? { HeadOfQueue(s, q); }
  }

  lemma BusyCanMove(s: Sys, w: nat)
    requires Inv(s) && w < |s.workers| && s.workers[w].Busy?
    ensures HeldAt(s, w) && CanMove(s, w)
  {
    assert WorkerOk(s.nio, s.cmds, s.status, w, s.workers[w]);
    assert HeldAt(s, w);
    match s.workers[w].stage
    case Popped => assert Enabled(s, Execute(w, 0));
    case Ran(_) => assert Enabled(s, Report(w));
    case Reported(_) => assert Enabled(s, CountUp(w));
    case Counted(_, _) => assert Enabled(s, Finish(w));
  }
}
