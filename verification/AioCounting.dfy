/** Completion counting of one request: the callback comes exactly once, after the last command,
    with the right number of failures, however the workers' actions interleave. */
module AioCounting {
  import opened Collections
  import opened Aio

  function Below(n: nat): (s: set<nat>)
    ensures |s| == n
    ensures forall i: nat :: i in s <==> i < n
  {
    if n == 0 then {} else Below(n - 1) + {n - 1}
  }

  /** Never more than n are counted, and n only if every one is. */
  lemma CountedBound(status: Statuses, r: nat, n: nat)
    ensures |CountedOf(status, r, n)| <= n
    ensures |CountedOf(status, r, n)| == n ==>
              forall i: nat :: i < n ==> Task(r, i) in status && IsCounted(status[Task(r, i)])
  {
    var c, b := CountedOf(status, r, n), Below(n);
    assert c <= b;
    SubsetSize(c, b);
    if |c| == n {
      forall i: nat | i < n
        ensures Task(r, i) in status && IsCounted(status[Task(r, i)])
      {
        assert i in c;
      }
    }
  }

  lemma CountedUpdate(status: Statuses, t: Task, x: Status, r: nat, n: nat)
    requires t in status
    ensures var c, c' := CountedOf(status, r, n), CountedOf(status[t := x], r, n);
            if t.req != r || t.idx >= n then c' == c
            else if IsCounted(x) then c' == c + {t.idx} else c' == c - {t.idx}
  {
  }

  lemma FailuresUpdate(status: Statuses, t: Task, x: Status, r: nat, n: nat)
    requires t in status
    ensures var f, f' := FailuresOf(status, r, n), FailuresOf(status[t := x], r, n);
            if t.req != r || t.idx >= n then f' == f
            else if IsFailure(x) then f' == f + {t.idx} else f' == f - {t.idx}
  {
  }

  predicate IsDeciding(st: Status) {
    st.Pushed? && st.ph.Held? && st.ph.stage.Counted?
  }

  lemma SameDeciding(status: Statuses, t: Task, x: Status, r: nat, n: nat, completed: nat)
    requires t in status && Numbered(status, r, n, completed)
    requires t.req == r ==> !IsDeciding(status[t]) && !IsDeciding(x)
    ensures Numbered(status[t := x], r, n, completed)
    ensures NoneDeciding(status[t := x], r, n, n - 1) == NoneDeciding(status, r, n, n - 1)
  {
    var status' := status[t := x];
    forall i: nat, p: nat
      ensures Deciding(status', Task(r, i), p) == Deciding(status, Task(r, i), p)
    {
    }
    if !NoneDeciding(status, r, n, n - 1) {
      var i: nat :| i < n && n - 1 >= 0 && Deciding(status, Task(r, i), n - 1);
      assert Deciding(status', Task(r, i), n - 1);
    }
  }

  /** A change that counts nothing: another request's command, or one that has not come that far. */
  lemma QuietKeeps(status: Statuses, t: Task, x: Status, r: nat, n: nat,
                   fails: nat, completed: nat, callbacks: seq<nat>)
    requires t in status && ReqOk(status, r, n, fails, completed, callbacks)
    requires t.req == r ==>
               && !IsCounted(status[t]) && !IsCounted(x) && IsFailure(status[t]) == IsFailure(x)
    ensures ReqOk(status[t := x], r, n, fails, completed, callbacks)
  {
    assert CountedOf(status[t := x], r, n) == CountedOf(status, r, n) by { CountedUpdate(status, t, x, r, n); }
    assert FailuresOf(status[t := x], r, n) == FailuresOf(status, r, n) by { FailuresUpdate(status, t, x, r, n); }
    SameDeciding(status, t, x, r, n, completed);
  }

  /** Before a command is counted the request is open: no callback yet, counters short of n. */
  lemma OpenRequest(status: Statuses, t: Task, n: nat, fails: nat, completed: nat, callbacks: seq<nat>)
    requires t in status && t.idx < n && ReqOk(status, t.req, n, fails, completed, callbacks)
    requires !IsCounted(status[t])
    ensures completed < n && callbacks == []
  {
    CountedBound(status, t.req, n);
  }

  /** m_cmd_fail_cnt.fetch_add(1) for a command that returned -1. */
  lemma FailureKeeps(status: Statuses, t: Task, x: Status, n: nat, fails: nat, completed: nat, callbacks: seq<nat>)
    requires t in status && t.idx < n && ReqOk(status, t.req, n, fails, completed, callbacks)
    requires !IsCounted(status[t]) && !IsFailure(status[t]) && !IsCounted(x) && IsFailure(x)
    ensures ReqOk(status[t := x], t.req, n, fails + 1, completed, callbacks)
  {
    var r := t.req;
    OpenRequest(status, t, n, fails, completed, callbacks);
    CountedUpdate(status, t, x, r, n);
    FailuresUpdate(status, t, x, r, n);
    assert CountedOf(status[t := x], r, n) == CountedOf(status, r, n);
    assert t.idx !in FailuresOf(status, r, n);
    SameDeciding(status, t, x, r, n, completed);
  }

  /** m_completed_cnt.fetch_add(1): the old value is this command's number. */
  lemma CountKeeps(status: Statuses, t: Task, x: Status, n: nat, fails: nat, completed: nat, callbacks: seq<nat>)
    requires t in status && t.idx < n && ReqOk(status, t.req, n, fails, completed, callbacks)
    requires !IsCounted(status[t]) && IsDeciding(x) && x.ph.stage.prev == completed
    requires IsFailure(x) == IsFailure(status[t])
    ensures ReqOk(status[t := x], t.req, n, fails, completed + 1, callbacks)
  {
    var r, status' := t.req, status[t := x];
    OpenRequest(status, t, n, fails, completed, callbacks);
    CountedUpdate(status, t, x, r, n);
    FailuresUpdate(status, t, x, r, n);
    assert t.idx !in CountedOf(status, r, n);
    assert FailuresOf(status', r, n) == FailuresOf(status, r, n);
    NewNumber(status, t, x, n, completed);
  }

  lemma NewNumber(status: Statuses, t: Task, x: Status, n: nat, completed: nat)
    requires t in status && t.idx < n && Numbered(status, t.req, n, completed)
    requires !IsDeciding(status[t]) && IsDeciding(x) && x.ph.stage.prev == completed
    ensures Numbered(status[t := x], t.req, n, completed + 1)
    ensures completed == n - 1 ==> !NoneDeciding(status[t := x], t.req, n, n - 1)
  {
    var r, status' := t.req, status[t := x];
    forall i: nat, p: nat
      ensures Deciding(status', Task(r, i), p) <==>
              (if i == t.idx then p == completed else Deciding(status, Task(r, i), p))
    {
    }
    assert Deciding(status', Task(r, t.idx), completed);
  }

  /** The comparison with m_cmds.size() - 1, and the callback if it holds. */
  lemma FinishKeeps(status: Statuses, t: Task, x: Status, n: nat, fails: nat, completed: nat, callbacks: seq<nat>)
    requires t in status && t.idx < n && ReqOk(status, t.req, n, fails, completed, callbacks)
    requires IsDeciding(status[t]) && IsCounted(x) && !IsDeciding(x)
    requires IsFailure(x) == IsFailure(status[t])
    ensures ReqOk(status[t := x], t.req, n, fails, completed,
                  if status[t].ph.stage.prev == n - 1 then callbacks + [fails] else callbacks)
  {
    var r, status', prev := t.req, status[t := x], status[t].ph.stage.prev;
    CountedUpdate(status, t, x, r, n);
    FailuresUpdate(status, t, x, r, n);
    assert CountedOf(status', r, n) == CountedOf(status, r, n);
    assert FailuresOf(status', r, n) == FailuresOf(status, r, n);
    assert prev < completed <= n by {
      CountedBound(status, r, n);
      assert Deciding(status, Task(r, t.idx), prev);
    }
    OneDecides(status, t, x, n, completed);
    assert prev == n - 1 ==> callbacks == [] && callbacks + [fails] == [fails];
  }

  lemma OneDecides(status: Statuses, t: Task, x: Status, n: nat, completed: nat)
    requires t in status && t.idx < n && Numbered(status, t.req, n, completed)
    requires IsDeciding(status[t]) && !IsDeciding(x)
    ensures Numbered(status[t := x], t.req, n, completed)
    ensures var last := status[t].ph.stage.prev == n - 1;
            && (last ==> !NoneDeciding(status, t.req, n, n - 1) && NoneDeciding(status[t := x], t.req, n, n - 1))
            && (!last ==> NoneDeciding(status[t := x], t.req, n, n - 1) == NoneDeciding(status, t.req, n, n - 1))
  {
    var r, status', prev := t.req, status[t := x], status[t].ph.stage.prev;
    forall i: nat, p: nat
      ensures Deciding(status', Task(r, i), p) <==> (i != t.idx && Deciding(status, Task(r, i), p))
    {
    }
    assert Deciding(status, Task(r, t.idx), prev);
    if prev != n - 1 && !NoneDeciding(status, r, n, n - 1) {
      var i: nat :| i < n && n - 1 >= 0 && Deciding(status, Task(r, i), n - 1);
      assert Deciding(status', Task(r, i), n - 1);
    }
  }

  /** Once every command is done there was exactly one callback, and it was told how many
      commands returned -1; a callback never comes before all have run. */
  lemma Outcome(status: Statuses, r: nat, n: nat, fails: nat, completed: nat, callbacks: seq<nat>)
    requires ReqOk(status, r, n, fails, completed, callbacks)
    ensures n == 0 ==> callbacks == []
    ensures callbacks != [] ==>
              && callbacks == [|FailuresOf(status, r, n)|]
              && forall i: nat :: i < n ==> Task(r, i) in status && IsCounted(status[Task(r, i)])
    ensures n > 0 && (forall i: nat :: i < n ==>
                        Task(r, i) in status && status[Task(r, i)].Pushed? && status[Task(r, i)].ph.Done?) ==>
              callbacks == [|FailuresOf(status, r, n)|]
  {
    CountedBound(status, r, n);
    if n > 0 && (forall i: nat :: i < n ==>
                   Task(r, i) in status && status[Task(r, i)].Pushed? && status[Task(r, i)].ph.Done?) {
      assert CountedOf(status, r, n) == Below(n);
      assert NoneDeciding(status, r, n, n - 1);
    }
  }
}
