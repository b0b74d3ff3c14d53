/** The blocking queue (include/xfutil/queue.h) as a monitor: every step is one stretch of code
    between taking the mutex and giving it up, in any interleaving of any number of threads. */
module BlockingQueue {
  import opened Collections

  type Tid = nat

  /** Ready: outside or about to take the mutex. Asleep: waiting on the condition variable.
      Woken: notified, or woken for no reason, and about to test the loop condition again. */
  datatype Wait = Ready | Asleep | Woken

  /** What a thread is doing with the queue. */
  datatype Pc<T> = Idle | Push(v: T, front: bool, w: Wait) | Pop(w: Wait)

  /** A value went in at the back or at the front, or came out. */
  datatype Event<T> = In(v: T, front: bool) | Out(v: T)

  /** history records what went in and came out, in order. */
  datatype Monitor<T> = Monitor(queue: seq<T>, capacity: nat, pc: map<Tid, Pc<T>>, history: seq<Event<T>>)

  // ---------------------------------------------------------- a plain deque

  /** What a deque holds after these events. */
  function Replay<T>(h: seq<Event<T>>): seq<T> {
    if h == [] then []
    else
      var q, last := Replay(h[..|h| - 1]), h[|h| - 1];
      match last
      case In(v, true) => [v] + q
      case In(v, false) => q + [v]
      case Out(_) => if q == [] then [] else q[1..]
  }

  /** What came out was each time the front of the deque. */
  ghost predicate Legal<T>(h: seq<Event<T>>) {
    h == [] ||
    (var q, last := Replay(h[..|h| - 1]), h[|h| - 1];
     Legal(h[..|h| - 1]) && (last.Out? ==> q != [] && q[0] == last.v))
  }

  function Pushed<T>(h: seq<Event<T>>): seq<T> {
    if h == [] then []
    else Pushed(h[..|h| - 1]) + (if h[|h| - 1].In? then [h[|h| - 1].v] else [])
  }

  function Popped<T>(h: seq<Event<T>>): seq<T> {
    if h == [] then []
    else Popped(h[..|h| - 1]) + (if h[|h| - 1].Out? then [h[|h| - 1].v] else [])
  }

  predicate Fronted<T>(h: seq<Event<T>>) {
    exists i :: 0 <= i < |h| && h[i].In? && h[i].front
  }

  /** Every value that went in has come out or is still there. */
  lemma {:induction false} DequeConserves<T>(h: seq<Event<T>>)
    requires Legal(h)
    ensures multiset(Pushed(h)) == multiset(Popped(h)) + multiset(Replay(h))
  {
    if h == [] {
    } else {
      var g, v := h[..|h| - 1], h[|h| - 1].v;
      assert multiset(Pushed(g)) == multiset(Popped(g)) + multiset(Replay(g)) by { DequeConserves(g); }
      if h[|h| - 1].In? {
        assert multiset(Replay(h)) == multiset(Replay(g)) + multiset{v};
        assert Popped(h) == Popped(g);
      } else {
        assert Replay(g) == [v] + Replay(h);
        assert Pushed(h) == Pushed(g);
      }
    }
  }

  /** Without PushFront they keep their order. */
  lemma {:induction false} DequeOrders<T>(h: seq<Event<T>>)
    requires Legal(h) && !Fronted(h)
    ensures Pushed(h) == Popped(h) + Replay(h)
  {
    if h == [] {
    } else {
      var g, last := h[..|h| - 1], h[|h| - 1];
      assert Pushed(g) == Popped(g) + Replay(g) by {
        assert forall i :: 0 <= i < |g| ==> g[i] == h[i];
        DequeOrders(g);
      }
      if last.In? {
        assert !last.front;
        Regroup(Popped(g), Replay(g), [last.v]);
      } else {
        assert Replay(g) == [last.v] + Replay(h);
        Regroup(Popped(g), [last.v], Replay(h));
      }
    }
  }

  lemma {:induction false} LegalPrefix<T>(h: seq<Event<T>>, n: nat)
    requires Legal(h) && n <= |h|
    ensures Legal(h[..n])
  {
    if n == |h| {
      assert h[..n] == h;
    } else {
      LegalPrefix(h[..|h| - 1], n);
      assert h[..|h| - 1][..n] == h[..n];
    }
  }

  /** A value put in at the front is the next one to come out, and then all is as it was. */
  lemma FrontComesOutFirst<T>(h: seq<Event<T>>, k: nat)
    requires Legal(h) && k + 1 < |h| && h[k].In? && h[k].front && h[k + 1].Out?
    ensures h[k + 1].v == h[k].v && Replay(h[..k + 2]) == Replay(h[..k])
  {
    var a, b, c := h[..k], h[..k + 1], h[..k + 2];
    LegalPrefix(h, k + 2);
    assert b[..k] == a && b[k] == h[k];
    assert c[..k + 1] == b && c[k + 1] == h[k + 1];
    assert Replay(b) == [h[k].v] + Replay(a);
  }

  function Pushers<T>(pc: map<Tid, Pc<T>>, w: Wait): set<Tid> {
    set t | t in pc && pc[t].Push? && pc[t].w == w
  }

  function Poppers<T>(pc: map<Tid, Pc<T>>, w: Wait): set<Tid> {
    set t | t in pc && pc[t].Pop? && pc[t].w == w
  }

  predicate CanStart<T>(m: Monitor<T>, t: Tid) {
    t in m.pc && m.pc[t].Idle?
  }

  // ------------------------------------------------------------------ steps

  /** m_not_empty_cond.notify_one(). */
  ghost predicate NotifyPopper<T>(pc: map<Tid, Pc<T>>, pc': map<Tid, Pc<T>>) {
    if Poppers(pc, Asleep) == {} then pc' == pc
    else exists s :: s in Poppers(pc, Asleep) && pc' == pc[s := Pop(Woken)]
  }

  /** m_not_full_cond.notify_one(). */
  ghost predicate NotifyPusher<T>(pc: map<Tid, Pc<T>>, pc': map<Tid, Pc<T>>) {
    if Pushers(pc, Asleep) == {} then pc' == pc
    else exists s :: s in Pushers(pc, Asleep) && pc' == pc[s := pc[s].(w := Woken)]
  }

  function Put<T>(m: Monitor<T>, v: T, front: bool): Monitor<T> {
    m.(queue := if front then [v] + m.queue else m.queue + [v], history := m.history + [In(v, front)])
  }

  function Take<T>(m: Monitor<T>): Monitor<T>
    requires m.queue != []
  {
    m.(queue := m.queue[1..], history := m.history + [Out(m.queue[0])])
  }

  ghost predicate Begin<T>(m: Monitor<T>, m': Monitor<T>, t: Tid, op: Pc<T>) {
    CanStart(m, t) && !op.Idle? && op.w == Ready && m' == m.(pc := m.pc[t := op])
  }

  /** One pass of Push or PushFront under the mutex: go to sleep, or insert and notify. */
  ghost predicate PushPass<T>(m: Monitor<T>, m': Monitor<T>, t: Tid) {
    && t in m.pc && m.pc[t].Push? && m.pc[t].w != Asleep
    && if |m.queue| >= m.capacity
       then m' == m.(pc := m.pc[t := m.pc[t].(w := Asleep)])
       else
         && NotifyPopper(m.pc[t := Idle], m'.pc)
         && m' == Put(m, m.pc[t].v, m.pc[t].front).(pc := m'.pc)
  }

  ghost predicate PopPass<T>(m: Monitor<T>, m': Monitor<T>, t: Tid) {
    && t in m.pc && m.pc[t].Pop? && m.pc[t].w != Asleep
    && if m.queue == []
       then m' == m.(pc := m.pc[t := Pop(Asleep)])
       else
         && NotifyPusher(m.pc[t := Idle], m'.pc)
         && m' == Take(m).(pc := m'.pc)
  }

  ghost predicate TryPush<T>(m: Monitor<T>, m': Monitor<T>, t: Tid, v: T, ok: bool) {
    && CanStart(m, t) && ok == (|m.queue| < m.capacity)
    && if ok then NotifyPopper(m.pc, m'.pc) && m' == Put(m, v, false).(pc := m'.pc) else m' == m
  }

  ghost predicate TryPop<T>(m: Monitor<T>, m': Monitor<T>, t: Tid, ok: bool) {
    && CanStart(m, t) && ok == (m.queue != [])
    && if ok then NotifyPusher(m.pc, m'.pc) && m' == Take(m).(pc := m'.pc) else m' == m
  }

  /** Condition variables may also wake a waiter without any notification. */
  ghost predicate Spurious<T>(m: Monitor<T>, m': Monitor<T>, t: Tid) {
    && t in m.pc && !m.pc[t].Idle? && m.pc[t].w == Asleep
    && m' == m.(pc := m.pc[t := m.pc[t].(w := Woken)])
  }

  ghost predicate Init<T>(m: Monitor<T>) {
    && m.queue == [] && m.history == []
    && forall t :: t in m.pc ==> m.pc[t].Idle?
  }

  ghost predicate Next<T(!new)>(m: Monitor<T>, m': Monitor<T>) {
    || (exists t, op :: Begin(m, m', t, op))
    || (exists t :: PushPass(m, m', t))
    || (exists t :: PopPass(m, m', t))
    || (exists t, v, ok :: TryPush(m, m', t, v, ok))
    || (exists t, ok :: TryPop(m, m', t, ok))
    || (exists t :: Spurious(m, m', t))
  }

  // -------------------------------------------------------------- invariant

  /** No lost wake-up: while somebody sleeps un-notified, everything that waits to be taken is
      matched by a woken consumer, and every free place by a woken producer. */
  ghost predicate Served<T>(m: Monitor<T>) {
    && (Poppers(m.pc, Asleep) != {} ==> |m.queue| <= |Poppers(m.pc, Woken)|)
    && (Pushers(m.pc, Asleep) != {} ==> m.capacity - |m.queue| <= |Pushers(m.pc, Woken)|)
  }

  /** The queue holds what a deque would hold after the same events, and gave what it would give. */
  ghost predicate Conserved<T>(m: Monitor<T>) {
    Legal(m.history) && Replay(m.history) == m.queue
  }

  ghost predicate Inv<T>(m: Monitor<T>) {
    |m.queue| <= m.capacity && Served(m) && Conserved(m)
  }

  lemma PoppersUpdate<T>(pc: map<Tid, Pc<T>>, t: Tid, op: Pc<T>, w: Wait)
    ensures Poppers(pc[t := op], w) ==
            if op.Pop? && op.w == w then Poppers(pc, w) + {t} else Poppers(pc, w) - {t}
  {
  }

  lemma PushersUpdate<T>(pc: map<Tid, Pc<T>>, t: Tid, op: Pc<T>, w: Wait)
    ensures Pushers(pc[t := op], w) ==
            if op.Push? && op.w == w then Pushers(pc, w) + {t} else Pushers(pc, w) - {t}
  {
  }

  /** What one thread's change of state does to the four groups that matter. */
  lemma Update<T>(pc: map<Tid, Pc<T>>, t: Tid, op: Pc<T>)
    ensures forall w | w in {Asleep, Woken} ::
              Poppers(pc[t := op], w) == if op.Pop? && op.w == w then Poppers(pc, w) + {t} else Poppers(pc, w) - {t}
    ensures forall w | w in {Asleep, Woken} ::
              Pushers(pc[t := op], w) == if op.Push? && op.w == w then Pushers(pc, w) + {t} else Pushers(pc, w) - {t}
  {
    PoppersUpdate(pc, t, op, Asleep);
    PoppersUpdate(pc, t, op, Woken);
    PushersUpdate(pc, t, op, Asleep);
    PushersUpdate(pc, t, op, Woken);
  }

  /** Notifying a popper: if any sleeps, the woken ones become one more. */
  lemma NotifyPopperEffect<T>(pc: map<Tid, Pc<T>>, pc': map<Tid, Pc<T>>)
    requires NotifyPopper(pc, pc')
    ensures Poppers(pc', Asleep) <= Poppers(pc, Asleep)
    ensures Poppers(pc, Asleep) != {} ==> |Poppers(pc', Woken)| == |Poppers(pc, Woken)| + 1
    ensures Pushers(pc', Asleep) == Pushers(pc, Asleep) && Pushers(pc', Woken) == Pushers(pc, Woken)
  {
    if Poppers(pc, Asleep) != {} {
      var s :| s in Poppers(pc, Asleep) && pc' == pc[s := Pop(Woken)];
      Update(pc, s, Pop(Woken));
      assert s !in Poppers(pc, Woken);
      assert s !in Pushers(pc, Asleep) && s !in Pushers(pc, Woken);
    }
  }

  lemma NotifyPusherEffect<T>(pc: map<Tid, Pc<T>>, pc': map<Tid, Pc<T>>)
    requires NotifyPusher(pc, pc')
    ensures Pushers(pc', Asleep) <= Pushers(pc, Asleep)
    ensures Pushers(pc, Asleep) != {} ==> |Pushers(pc', Woken)| == |Pushers(pc, Woken)| + 1
    ensures Poppers(pc', Asleep) == Poppers(pc, Asleep) && Poppers(pc', Woken) == Poppers(pc, Woken)
  {
    if Pushers(pc, Asleep) != {} {
      var s :| s in Pushers(pc, Asleep) && pc' == pc[s := pc[s].(w := Woken)];
      Update(pc, s, pc[s].(w := Woken));
      assert s !in Pushers(pc, Woken);
      assert s !in Poppers(pc, Asleep) && s !in Poppers(pc, Woken);
    }
  }

  /** A thread that leaves, in any state but asleep, takes at most one woken thread away. */
  lemma LeaveEffect<T>(pc: map<Tid, Pc<T>>, t: Tid)
    requires t in pc && (pc[t].Idle? || pc[t].w != Asleep)
    ensures Poppers(pc[t := Idle], Asleep) == Poppers(pc, Asleep)
    ensures Pushers(pc[t := Idle], Asleep) == Pushers(pc, Asleep)
    ensures |Poppers(pc[t := Idle], Woken)| >= |Poppers(pc, Woken)| - (if pc[t].Pop? then 1 else 0)
    ensures |Pushers(pc[t := Idle], Woken)| >= |Pushers(pc, Woken)| - (if pc[t].Push? then 1 else 0)
  {
    Update(pc, t, Idle);
    assert t !in Poppers(pc, Asleep) && t !in Pushers(pc, Asleep);
    if !pc[t].Pop? { assert t !in Poppers(pc, Woken); }
    if !pc[t].Push? { assert t !in Pushers(pc, Woken); }
  }

  /** Inserting keeps everyone served: the leaving thread is no consumer, the new value
      is matched by the consumer that is notified. */
  lemma PutServed<T>(m: Monitor<T>, pc: map<Tid, Pc<T>>, m': Monitor<T>, v: T, front: bool)
    requires Served(m) && |m.queue| < m.capacity
    requires Poppers(pc, Asleep) == Poppers(m.pc, Asleep) && Pushers(pc, Asleep) == Pushers(m.pc, Asleep)
    requires |Poppers(pc, Woken)| >= |Poppers(m.pc, Woken)|
    requires |Pushers(pc, Woken)| >= |Pushers(m.pc, Woken)| - 1
    requires NotifyPopper(pc, m'.pc) && m' == Put(m, v, front).(pc := m'.pc)
    ensures Served(m')
  {
    NotifyPopperEffect(pc, m'.pc);
  }

  lemma TakeServed<T>(m: Monitor<T>, pc: map<Tid, Pc<T>>, m': Monitor<T>)
    requires Served(m) && m.queue != []
    requires Poppers(pc, Asleep) == Poppers(m.pc, Asleep) && Pushers(pc, Asleep) == Pushers(m.pc, Asleep)
    requires |Poppers(pc, Woken)| >= |Poppers(m.pc, Woken)| - 1
    requires |Pushers(pc, Woken)| >= |Pushers(m.pc, Woken)|
    requires NotifyPusher(pc, m'.pc) && m' == Take(m).(pc := m'.pc)
    ensures Served(m')
  {
    NotifyPusherEffect(pc, m'.pc);
  }

  lemma PutConserved<T>(m: Monitor<T>, v: T, front: bool)
    requires Conserved(m)
    ensures Conserved(Put(m, v, front))
  {
    var h := m.history + [In(v, front)];
    assert h[..|h| - 1] == m.history;
  }

  lemma TakeConserved<T>(m: Monitor<T>)
    requires Conserved(m) && m.queue != []
    ensures Conserved(Take(m))
  {
    var h := m.history + [Out(m.queue[0])];
    assert h[..|h| - 1] == m.history;
  }

  lemma PushPassKeeps<T>(m: Monitor<T>, m': Monitor<T>, t: Tid)
    requires Inv(m) && PushPass(m, m', t)
    ensures Inv(m') && m'.capacity == m.capacity
  {
    if |m.queue| >= m.capacity {
      Update(m.pc, t, m.pc[t].(w := Asleep));
      assert t !in Poppers(m.pc, Asleep) && t !in Poppers(m.pc, Woken);
    } else {
      LeaveEffect(m.pc, t);
      PutServed(m, m.pc[t := Idle], m', m.pc[t].v, m.pc[t].front);
      PutConserved(m, m.pc[t].v, m.pc[t].front);
    }
  }

  lemma PopPassKeeps<T>(m: Monitor<T>, m': Monitor<T>, t: Tid)
    requires Inv(m) && PopPass(m, m', t)
    ensures Inv(m') && m'.capacity == m.capacity
  {
    if m.queue == [] {
      Update(m.pc, t, Pop(Asleep));
      assert t !in Pushers(m.pc, Asleep) && t !in Pushers(m.pc, Woken);
    } else {
      LeaveEffect(m.pc, t);
      TakeServed(m, m.pc[t := Idle], m');
      TakeConserved(m);
    }
  }

  lemma TryPushKeeps<T>(m: Monitor<T>, m': Monitor<T>, t: Tid, v: T, ok: bool)
    requires Inv(m) && TryPush(m, m', t, v, ok)
    ensures Inv(m') && m'.capacity == m.capacity
  {
    if ok {
      PutServed(m, m.pc, m', v, false);
      PutConserved(m, v, false);
    }
  }

  lemma TryPopKeeps<T>(m: Monitor<T>, m': Monitor<T>, t: Tid, ok: bool)
    requires Inv(m) && TryPop(m, m', t, ok)
    ensures Inv(m') && m'.capacity == m.capacity
  {
    if ok {
      TakeServed(m, m.pc, m');
      TakeConserved(m);
    }
  }

  lemma BeginKeeps<T>(m: Monitor<T>, m': Monitor<T>, t: Tid, op: Pc<T>)
    requires Inv(m) && Begin(m, m', t, op)
    ensures Inv(m') && m'.capacity == m.capacity
  {
    Update(m.pc, t, op);
    assert t !in Poppers(m.pc, Asleep) && t !in Poppers(m.pc, Woken);
    assert t !in Pushers(m.pc, Asleep) && t !in Pushers(m.pc, Woken);
  }

  lemma SpuriousKeeps<T>(m: Monitor<T>, m': Monitor<T>, t: Tid)
    requires Inv(m) && Spurious(m, m', t)
    ensures Inv(m') && m'.capacity == m.capacity
  {
    Update(m.pc, t, m.pc[t].(w := Woken));
    assert t !in Poppers(m.pc, Woken) && t !in Pushers(m.pc, Woken);
    if m.pc[t].Push? {
      assert t !in Poppers(m.pc, Asleep);
    } else {
      assert t !in Pushers(m.pc, Asleep);
    }
  }

  lemma NextKeeps<T(!new)>(m: Monitor<T>, m': Monitor<T>)
    requires Inv(m) && Next(m, m')
    ensures Inv(m') && m'.capacity == m.capacity
  {
    if t, op :| Begin(m, m', t, op) {
      BeginKeeps(m, m', t, op);
    } else if t :| PushPass(m, m', t) {
      PushPassKeeps(m, m', t);
    } else if t :| PopPass(m, m', t) {
      PopPassKeeps(m, m', t);
    } else if t, v, ok :| TryPush(m, m', t, v, ok) {
      TryPushKeeps(m, m', t, v, ok);
    } else if t, ok :| TryPop(m, m', t, ok) {
      TryPopKeeps(m, m', t, ok);
    } else if t :| Spurious(m, m', t) {
      SpuriousKeeps(m, m', t);
    }
  }

  // ------------------------------------------------------------- whole runs

  ghost predicate IsRun<T(!new)>(run: seq<Monitor<T>>) {
    && run != [] && Init(run[0])
    && forall i :: 0 <= i < |run| - 1 ==> Next(run[i], run[i + 1])
  }

  lemma {:induction false} RunKeeps<T(!new)>(run: seq<Monitor<T>>, i: nat)
    requires IsRun(run) && i < |run|
    ensures Inv(run[i]) && run[i].capacity == run[0].capacity
  {
    if i == 0 {
    } else {
      RunKeeps(run, i - 1);
      NextKeeps(run[i - 1], run[i]);
    }
  }

  /** Nobody holds or is about to take the mutex. */
  ghost predicate AllStill<T>(m: Monitor<T>) {
    forall t :: t in m.pc ==> m.pc[t].Idle? || m.pc[t].w == Asleep
  }

  /** A run never ends up with threads asleep that could go on: when everyone inside the queue
      sleeps, sleeping consumers face an empty queue, sleeping producers a full one, and with
      room for at least one value they never sleep on both sides. */
  lemma NeverStuck<T(!new)>(run: seq<Monitor<T>>, i: nat)
    requires IsRun(run) && i < |run| && run[i].capacity >= 1 && AllStill(run[i])
    ensures Poppers(run[i].pc, Asleep) != {} ==> run[i].queue == []
    ensures Pushers(run[i].pc, Asleep) != {} ==> |run[i].queue| == run[i].capacity
    ensures Poppers(run[i].pc, Asleep) == {} || Pushers(run[i].pc, Asleep) == {}
  {
    RunKeeps(run, i);
    assert Poppers(run[i].pc, Woken) == {} && Pushers(run[i].pc, Woken) == {};
  }

  /** First in, first out over every run without PushFront; never more than capacity inside. */
  lemma FirstInFirstOut<T(!new)>(run: seq<Monitor<T>>, i: nat)
    requires IsRun(run) && i < |run|
    ensures |run[i].queue| <= run[0].capacity
    ensures var h := run[i].history;
            && multiset(Pushed(h)) == multiset(Popped(h)) + multiset(run[i].queue)
            && (!Fronted(h) ==> Pushed(h) == Popped(h) + run[i].queue)
  {
    RunKeeps(run, i);
    DequeConserves(run[i].history);
    if !Fronted(run[i].history) { DequeOrders(run[i].history); }
  }

  /** In every run the queue is a deque: it holds what the events leave in one, and a value that
      PushFront put in comes out next unless something else goes in first. */
  lemma AlwaysADeque<T(!new)>(run: seq<Monitor<T>>, i: nat, k: nat)
    requires IsRun(run) && i < |run|
    ensures Legal(run[i].history) && Replay(run[i].history) == run[i].queue
    ensures var h := run[i].history;
            k + 1 < |h| && h[k].In? && h[k].front && h[k + 1].Out? ==> h[k + 1].v == h[k].v
  {
    RunKeeps(run, i);
    var h := run[i].history;
    if k + 1 < |h| && h[k].In? && h[k].front && h[k + 1].Out? {
      FrontComesOutFirst(h, k);
    }
  }

  /** What a pass of each operation records, and does to the queue. */
  lemma PassRecords<T>(m: Monitor<T>, m': Monitor<T>, t: Tid)
    ensures PushPass(m, m', t) && |m.queue| < m.capacity && m.pc[t].front ==>
              m'.queue == [m.pc[t].v] + m.queue && m'.history == m.history + [In(m.pc[t].v, true)]
    ensures PushPass(m, m', t) && |m.queue| < m.capacity && !m.pc[t].front ==>
              m'.queue == m.queue + [m.pc[t].v] && m'.history == m.history + [In(m.pc[t].v, false)]
    ensures PopPass(m, m', t) && m.queue != [] ==>
              m.queue == [m.queue[0]] + m'.queue && m'.history == m.history + [Out(m.queue[0])]
    ensures PushPass(m, m', t) && |m.queue| >= m.capacity ==> m'.queue == m.queue && m'.history == m.history
    ensures PopPass(m, m', t) && m.queue == [] ==> m'.queue == m.queue && m'.history == m.history
  {
  }

  // --------------------------------------------------------------- the code

  /** The code of the queue. A method stands for the stretch that runs while the mutex is held;
      m_threads says who sleeps on which condition variable. */
  class Queue<T(==)> {
    const m_capacity: nat
    var m_queue: seq<T>
    var m_threads: map<Tid, Pc<T>>
    ghost var history: seq<Event<T>>

    ghost function State(): Monitor<T>
      reads this
    {
      Monitor(m_queue, m_capacity, m_threads, history)
    }

    constructor (capacity: nat, threads: set<Tid>)
      ensures Init(State()) && Inv(State()) && m_capacity == capacity && m_threads.Keys == threads
    {
      m_capacity, m_queue := capacity, [];
      m_threads := map t | t in threads :: Idle;
      history := [];
    }

    /** A thread calls Push, PushFront or Pop and is about to take the mutex. */
    method StepBegin(t: Tid, op: Pc<T>)
      requires Inv(State()) && t in m_threads && m_threads[t].Idle? && !op.Idle? && op.w == Ready
      modifies this
      ensures Inv(State()) && Begin(old(State()), State(), t, op)
    {
      m_threads := m_threads[t := op];
      BeginKeeps(old(State()), State(), t, op);
    }

    /** A wait returns without any notification. */
    method StepSpurious(t: Tid)
      requires Inv(State()) && t in m_threads && !m_threads[t].Idle? && m_threads[t].w == Asleep
      modifies this
      ensures Inv(State()) && Spurious(old(State()), State(), t)
    {
      m_threads := m_threads[t := m_threads[t].(w := Woken)];
      SpuriousKeeps(old(State()), State(), t);
    }

    method NotifyNotEmpty()
      modifies `m_threads
      ensures NotifyPopper(old(m_threads), m_threads)
    {
      var sleepers := Poppers(m_threads, Asleep);
      if sleepers != {} {
        var s :| s in sleepers;
        m_threads := m_threads[s := Pop(Woken)];
      }
    }

    method NotifyNotFull()
      modifies `m_threads
      ensures NotifyPusher(old(m_threads), m_threads)
    {
      var sleepers := Pushers(m_threads, Asleep);
      if sleepers != {} {
        var s :| s in sleepers;
        m_threads := m_threads[s := m_threads[s].(w := Woken)];
      }
    }

    /** The loop test of Push and PushFront and, if there is room, what follows the loop. */
    method StepPush(t: Tid)
      requires Inv(State()) && t in m_threads && m_threads[t].Push? && m_threads[t].w != Asleep
      modifies this
      ensures Inv(State()) && PushPass(old(State()), State(), t)
      ensures var me := old(m_threads)[t];
              m_queue == if old(|m_queue|) >= m_capacity then old(m_queue)
                         else if me.front then [me.v] + old(m_queue) else old(m_queue) + [me.v]
    {
      var me := m_threads[t];
      if |m_queue| >= m_capacity {
        m_threads := m_threads[t := me.(w := Asleep)];
      } else {
        m_queue := if me.front then [me.v] + m_queue else m_queue + [me.v];
        history := history + [In(me.v, me.front)];
        m_threads := m_threads[t := Idle];
        NotifyNotEmpty();
      }
      PushPassKeeps(old(State()), State(), t);
    }

    method StepPop(t: Tid) returns (v: Option<T>)
      requires Inv(State()) && t in m_threads && m_threads[t].Pop? && m_threads[t].w != Asleep
      modifies this
      ensures Inv(State()) && PopPass(old(State()), State(), t)
      ensures if old(m_queue) == [] then v == None && m_queue == []
              else v == Some(old(m_queue)[0]) && m_queue == old(m_queue)[1..]
    {
      if m_queue == [] {
        m_threads := m_threads[t := Pop(Asleep)];
        v := None;
      } else {
        v := Some(m_queue[0]);
        m_queue, history := m_queue[1..], history + [Out(m_queue[0])];
        m_threads := m_threads[t := Idle];
        NotifyNotFull();
      }
      PopPassKeeps(old(State()), State(), t);
    }

    method StepTryPush(t: Tid, v: T) returns (ok: bool)
      requires Inv(State()) && t in m_threads && m_threads[t].Idle?
      modifies this
      ensures Inv(State()) && TryPush(old(State()), State(), t, v, ok)
      ensures ok <==> old(|m_queue|) < m_capacity
      ensures m_queue == if ok then old(m_queue) + [v] else old(m_queue)
    {
      if |m_queue| >= m_capacity {
        return false;
      }
      m_queue, history := m_queue + [v], history + [In(v, false)];
      NotifyNotEmpty();
      ok := true;
      TryPushKeeps(old(State()), State(), t, v, ok);
    }

    method StepTryPop(t: Tid) returns (v: Option<T>)
      requires Inv(State()) && t in m_threads && m_threads[t].Idle?
      modifies this
      ensures Inv(State()) && TryPop(old(State()), State(), t, v.Some?)
      ensures if old(m_queue) == [] then v == None && m_queue == []
              else v == Some(old(m_queue)[0]) && m_queue == old(m_queue)[1..]
    {
      if m_queue == [] {
        return None;
      }
      v := Some(m_queue[0]);
      m_queue, history := m_queue[1..], history + [Out(m_queue[0])];
      NotifyNotFull();
      TryPopKeeps(old(State()), State(), t, true);
    }
  }
}
