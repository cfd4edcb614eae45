/** Runs with late INCRs, and the exact lateness the boundary claim bears: none. */
module RateLimitWitnesses {
  import opened Wrappers
  import opened RateLimit

  /** A request that finds its counter within the limit is counted, sets the expiry if it is the first, and is admitted. */
  lemma AdmitOne(l: Limits, steps: seq<Step>, r: RequestId, k: Key) returns (more: seq<Step>)
    requires var s := Exec(l, steps); r in s.requests && s.requests[r] == Windowed(k) && CountOf(s.store, k, s.now) < l.limit
    ensures var s, t := Exec(l, steps), Exec(l, more);
            var count := CountOf(s.store, k, s.now) + 1;
            && t.now == s.now && t.requests == s.requests[r := Done]
            && t.log == s.log + [Entry(k, s.now, count)] && t.verdicts == s.verdicts[|s.log| := Admitted]
            && t.store.Keys == s.store.Keys + {k} && CountOf(t.store, k, t.now) == count
            && (count == 1 ==> t.store[k] == Counter(1, Some(s.now + l.windowMs)))
  {
    var s := Exec(l, steps);
    var counted := Apply(s, l, SendIncr(r, false));
    ExecSnoc(l, steps, SendIncr(r, false));
    ExecSnoc(l, steps + [SendIncr(r, false)], SendExpire(r, true, true));
    more := steps + [SendIncr(r, false)] + [SendExpire(r, true, true)];
    var t := Apply(counted, l, SendExpire(r, true, true));
    assert counted.requests[r].Done? || counted.requests[r] == Expiring(k, |s.log|);
    assert t.requests == s.requests[r := Done];
  }

  ghost predicate Ready(s: State, r: RequestId, n: nat, k: Key) {
    forall i :: r <= i < r + n ==> i in s.requests && s.requests[i] == Windowed(k)
  }

  ghost predicate SameRequests(s: State, t: State, r: RequestId, n: nat) {
    forall i :: !(r <= i < r + n) ==> (i in s.requests <==> i in t.requests) && (i in s.requests ==> t.requests[i] == s.requests[i])
  }

  /** Several requests of one client read the clock at one instant. */
  lemma {:induction false} ReadMany(l: Limits, steps: seq<Step>, r: RequestId, n: nat, client: Client) returns (more: seq<Step>)
    requires forall i :: r <= i < r + n ==> i !in Exec(l, steps).requests
    ensures var s, t := Exec(l, steps), Exec(l, more);
            && t == s.(requests := t.requests)
            && Ready(t, r, n, Key(client, WindowOf(s.now, l.windowMs))) && SameRequests(s, t, r, n)
  {
    more := steps;
    if n > 0 {
      more := ReadMany(l, steps, r, n - 1, client);
      more := ReadOne(l, more, r + n - 1, client);
    }
  }

  lemma ReadOne(l: Limits, steps: seq<Step>, r: RequestId, client: Client) returns (more: seq<Step>)
    requires r !in Exec(l, steps).requests
    ensures var s := Exec(l, steps);
            Exec(l, more) == s.(requests := s.requests[r := Windowed(Key(client, WindowOf(s.now, l.windowMs)))])
  {
    ExecSnoc(l, steps, ReadClock(r, client));
    more := steps + [ReadClock(r, client)];
  }

  /** Several such requests are counted and admitted at one instant. */
  lemma {:induction false} AdmitMany(l: Limits, steps: seq<Step>, r: RequestId, n: nat, k: Key) returns (more: seq<Step>)
    requires n <= l.limit && Ready(Exec(l, steps), r, n, k) && k !in Exec(l, steps).store
    ensures var s, t := Exec(l, steps), Exec(l, more);
            && t.now == s.now && SameRequests(s, t, r, n) && t.store.Keys <= s.store.Keys + {k}
            && Logged(s, t, n, k) && CountOf(t.store, k, t.now) == n
  {
    more := steps;
    if n > 0 {
      more := AdmitMany(l, steps, r, n - 1, k);
      var mid := Exec(l, more);
      assert Ready(Exec(l, steps), r + n - 1, 1, k);
      ReadyKept(Exec(l, steps), mid, r, n - 1, r + n - 1, 1, k);
      more := AdmitOne(l, more, r + n - 1, k);
      LoggedOneMore(Exec(l, steps), mid, Exec(l, more), n - 1, k);
    }
  }

  lemma ReadyKept(s: State, t: State, r: RequestId, n: nat, q: RequestId, m: nat, k: Key)
    requires SameRequests(s, t, r, n) && Ready(s, q, m, k) && (q + m <= r || r + n <= q)
    ensures Ready(t, q, m, k)
  {
  }

  lemma LoggedOneMore(s: State, mid: State, t: State, n: nat, k: Key)
    requires Logged(s, mid, n, k) && t.now == mid.now && t.verdicts == mid.verdicts[|mid.log| := Admitted]
    requires |t.log| == |mid.log| + 1 && t.log[..|mid.log|] == mid.log
    requires t.log[|mid.log|].key == k && t.log[|mid.log|].at == t.now
    ensures Logged(s, t, n + 1, k)
  {
    assert forall i :: 0 <= i < |mid.log| ==> t.log[i] == mid.log[i];
  }

  /** The INCRs of the key that were added, all at this instant and all admitted. */
  ghost predicate Logged(s: State, t: State, n: nat, k: Key) {
    && |t.log| == |s.log| + n && t.log[..|s.log|] == s.log
    && (forall i :: 0 <= i < |s.log| && i in s.verdicts ==> i in t.verdicts && t.verdicts[i] == s.verdicts[i])
    && forall i :: |s.log| <= i < |t.log| ==>
         t.log[i].key == k && t.log[i].at == t.now && i in t.verdicts && t.verdicts[i] == Admitted
  }

  /** Every INCR ran at most `late` milliseconds after the end of its window. */
  ghost predicate AtMostLate(s: State, l: Limits, late: nat) {
    forall i :: 0 <= i < |s.log| ==> s.log[i].at <= EndOf(s.log[i].key, l.windowMs) + late
  }

  /** The boundary claim, of one client and one span of a window's length. */
  ghost predicate SpanBounded(s: State, l: Limits, client: Client, from: nat) {
    ArrivalsIn(s, client, from, from + l.windowMs, |s.log|) <= 2 * l.limit
  }

  ghost predicate Bounded(s: State, l: Limits) {
    forall client, from: nat :: SpanBounded(s, l, client, from)
  }

  lemma {:induction false} NoneLate(s: State, l: Limits, client: Client, from: nat, to: nat, n: nat)
    requires n <= |s.log| && AtMostLate(s, l, 0)
    ensures LateIn(s, l, client, from, to, n) == 0
  {
    if n > 0 {
      NoneLate(s, l, client, from, to, n - 1);
    }
  }

  lemma {:induction false} NoneAdmitted(s: State, l: Limits, client: Client, from: nat, to: nat, n: nat)
    requires l.limit == 0 && Inv(s, l) && n <= |s.log|
    ensures ArrivalsIn(s, client, from, to, n) == 0
  {
    if n > 0 {
      NoneAdmitted(s, l, client, from, to, n - 1);
      assert EntryInv(s, l, n - 1);
    }
  }

  /** Every INCR so far was an admitted arrival of the client in the span. */
  ghost predicate AllArrived(s: State, client: Client, from: nat, to: nat) {
    forall i :: 0 <= i < |s.log| ==> ArrivalAt(s, client, from, to, i)
  }

  lemma {:induction false} ArrivalsCounted(s: State, client: Client, from: nat, to: nat, n: nat)
    requires n <= |s.log| && AllArrived(s, client, from, to)
    ensures ArrivalsIn(s, client, from, to, n) == n
  {
    if n > 0 {
      ArrivalsCounted(s, client, from, to, n - 1);
    }
  }

  /** Admitting more of the client's requests within the span keeps that, and they are as late as they are. */
  lemma LoggedArrive(s: State, t: State, n: nat, k: Key, from: nat, to: nat, l: Limits, late: nat)
    requires Logged(s, t, n, k) && AllArrived(s, k.client, from, to) && from <= t.now < to
    requires AtMostLate(s, l, late) && t.now <= EndOf(k, l.windowMs) + late
    ensures AllArrived(t, k.client, from, to) && AtMostLate(t, l, late)
  {
    forall i: nat | i < |t.log|
      ensures ArrivalAt(t, k.client, from, to, i) && t.log[i].at <= EndOf(t.log[i].key, l.windowMs) + late
    {
      if i < |s.log| {
        assert t.log[i] == s.log[i] && ArrivalAt(s, k.client, from, to, i);
      }
    }
  }

  /** The whole limit of one window admitted at one instant. */
  lemma AdmitWindow(l: Limits, steps: seq<Step>, r: RequestId, k: Key, from: nat, to: nat, late: nat) returns (more: seq<Step>)
    requires var s := Exec(l, steps);
             && Ready(s, r, l.limit, k) && k !in s.store && from <= s.now < to && s.now <= EndOf(k, l.windowMs) + late
             && AllArrived(s, k.client, from, to) && AtMostLate(s, l, late)
    ensures var s, t := Exec(l, steps), Exec(l, more);
            && t.now == s.now && SameRequests(s, t, r, l.limit) && t.store.Keys <= s.store.Keys + {k}
            && |t.log| == |s.log| + l.limit
            && AllArrived(t, k.client, from, to) && AtMostLate(t, l, late)
  {
    more := AdmitMany(l, steps, r, l.limit, k);
    LoggedArrive(Exec(l, steps), Exec(l, more), l.limit, k, from, to, l, late);
  }

  lemma AdmitTwoWindows(l: Limits, steps: seq<Step>, r: RequestId, k: Key, j: Key, from: nat, to: nat, late: nat)
    returns (more: seq<Step>)
    requires k != j && k.client == j.client
    requires var s := Exec(l, steps);
             && Ready(s, r, l.limit, k) && Ready(s, r + l.limit, l.limit, j) && k !in s.store && j !in s.store
             && from <= s.now < to && s.now <= EndOf(k, l.windowMs) + late && s.now <= EndOf(j, l.windowMs) + late
             && AllArrived(s, k.client, from, to) && AtMostLate(s, l, late)
    ensures var s, t := Exec(l, steps), Exec(l, more);
            && |t.log| == |s.log| + 2 * l.limit && AllArrived(t, k.client, from, to) && AtMostLate(t, l, late)
  {
    more := AdmitWindow(l, steps, r, k, from, to, late);
    ReadyKept(Exec(l, steps), Exec(l, more), r, l.limit, r + l.limit, l.limit, j);
    more := AdmitWindow(l, more, r + l.limit, j, from, to, late);
  }

  lemma WindowsAt(windowMs: Positive, client: Client)
    ensures WindowOf(0, windowMs) == 0 && WindowOf(windowMs, windowMs) == 1 && WindowOf(2 * windowMs, windowMs) == 2
    ensures EndOf(Key(client, 0), windowMs) == windowMs && EndOf(Key(client, 1), windowMs) == 2 * windowMs
    ensures EndOf(Key(client, 2), windowMs) == 3 * windowMs
  {
    WindowBounds(0, windowMs, 0);
    WindowBounds(windowMs, windowMs, 1);
    WindowBounds(2 * windowMs, windowMs, 2);
  }

  /** One request of the first window and the whole limit of the second have read the clock; none has been counted. */
  lemma ReadTwoWindows(l: Limits, client: Client) returns (steps: seq<Step>)
    ensures var s := Exec(l, steps);
            && s == INIT.(now := l.windowMs, requests := s.requests)
            && Ready(s, 0, 1, Key(client, 0)) && Ready(s, 1, l.limit, Key(client, 1))
            && forall i :: i > l.limit ==> i !in s.requests
  {
    WindowsAt(l.windowMs, client);
    steps := ReadMany(l, [], 0, 1, client);
    var first := Exec(l, steps);
    ExecSnoc(l, steps, Tick(l.windowMs));
    steps := steps + [Tick(l.windowMs)];
    steps := ReadMany(l, steps, 1, l.limit, client);
    assert 0 in first.requests && Exec(l, steps).requests[0] == first.requests[0];
  }

  /** Then the first window's INCR runs one millisecond late, and the limit of the third window reads the clock. */
  lemma OneLate(l: Limits, client: Client) returns (steps: seq<Step>)
    requires l.limit > 0
    ensures var s := Exec(l, steps);
            && s.now == 2 * l.windowMs && s.log == [Entry(Key(client, 0), l.windowMs + 1, 1)]
            && s.verdicts == map[0 := Admitted] && s.store.Keys == {Key(client, 0)}
            && Ready(s, 1, l.limit, Key(client, 1)) && Ready(s, l.limit + 1, l.limit, Key(client, 2))
  {
    WindowsAt(l.windowMs, client);
    steps := ReadTwoWindows(l, client);
    ExecSnoc(l, steps, Tick(1));
    steps := steps + [Tick(1)];
    assert 0 in Exec(l, steps).requests;
    steps := AdmitOne(l, steps, 0, Key(client, 0));
    ExecSnoc(l, steps, Tick(l.windowMs - 1));
    steps := steps + [Tick(l.windowMs - 1)];
    var before := Exec(l, steps);
    steps := ReadMany(l, steps, l.limit + 1, l.limit, client);
    assert forall i :: 1 <= i < 1 + l.limit ==> i in before.requests && Exec(l, steps).requests[i] == before.requests[i];
  }

  /**
   * One millisecond is too much: for any limit and window there is a run whose only late INCR is one
   * millisecond late, and a span of one window length in which one more than twice the limit is admitted.
   */
  lemma OneMillisecondBreaksTheBound(l: Limits, client: Client) returns (steps: seq<Step>)
    requires l.limit > 0
    ensures var s := Exec(l, steps);
            && AtMostLate(s, l, 1)
            && ArrivalsIn(s, client, l.windowMs + 1, 2 * l.windowMs + 1, |s.log|) == 2 * l.limit + 1
  {
    var from, to := l.windowMs + 1, 2 * l.windowMs + 1;
    var second, third := Key(client, 1), Key(client, 2);
    steps := OneLate(l, client);
    var s := Exec(l, steps);
    assert ArrivalAt(s, client, from, to, 0);
    assert AllArrived(s, client, from, to) && AtMostLate(s, l, 1);
    assert second !in s.store && third !in s.store;
    WindowsAt(l.windowMs, client);
    steps := AdmitTwoWindows(l, steps, 1, second, third, from, to, 1);
    ArrivalsCounted(Exec(l, steps), client, from, to, |Exec(l, steps).log|);
  }

  /**
   * The boundary claim exactly: for any window and limit, the runs whose INCRs are at most `late`
   * milliseconds late all admit at most twice the limit in any span of one window length if and only if
   * that lateness is none, or nothing is ever admitted.
   */
  lemma BoundExactly(l: Limits, late: nat)
    ensures (forall steps :: AtMostLate(Exec(l, steps), l, late) ==> Bounded(Exec(l, steps), l)) <==> late == 0 || l.limit == 0
  {
    if late == 0 || l.limit == 0 {
      forall steps | AtMostLate(Exec(l, steps), l, late)
        ensures Bounded(Exec(l, steps), l)
      {
        BoundedRun(l, steps, late);
      }
    } else {
      var client := "";
      var steps := OneMillisecondBreaksTheBound(l, client);
      var s := Exec(l, steps);
      assert AtMostLate(s, l, late);
      assert l.windowMs + 1 + l.windowMs == 2 * l.windowMs + 1;
      assert !SpanBounded(s, l, client, l.windowMs + 1);
    }
  }

  lemma BoundedRun(l: Limits, steps: seq<Step>, late: nat)
    requires (late == 0 || l.limit == 0) && AtMostLate(Exec(l, steps), l, late)
    ensures Bounded(Exec(l, steps), l)
  {
    forall client, from: nat
      ensures SpanBounded(Exec(l, steps), l, client, from)
    {
      BoundedSpan(l, steps, late, client, from);
    }
  }

  lemma BoundedSpan(l: Limits, steps: seq<Step>, late: nat, client: Client, from: nat)
    requires (late == 0 || l.limit == 0) && AtMostLate(Exec(l, steps), l, late)
    ensures SpanBounded(Exec(l, steps), l, client, from)
  {
    var s := Exec(l, steps);
    if l.limit == 0 {
      ExecKeeps(l, steps);
      NoneAdmitted(s, l, client, from, from + l.windowMs, |s.log|);
    } else {
      AtMostTwiceTheLimit(l, steps, client, from);
      NoneLate(s, l, client, from, from + l.windowMs, |s.log|);
    }
  }

  /** Two INCRs of one key both counted as the first, both admitted. */
  ghost predicate CountedAgain(s: State, l: Limits, i: nat, k: nat) {
    && i < k < |s.log|
    && s.log[i].key == s.log[k].key
    && s.log[i].count == 1 && s.log[k].count == 1
    && i in s.verdicts && s.verdicts[i] == Admitted
    && k in s.verdicts && s.verdicts[k] == Admitted
    && !OnTime(s.log[k], l.windowMs)
  }

  /** An INCR that Redis runs late can find its counter expired and start it again, whatever limit and window. */
  lemma LateIncrStartsAgain(l: Limits, client: Client)
    requires l.limit > 0
    ensures exists steps :: CountedAgain(Exec(l, steps), l, 0, 1)
  {
    WindowsAt(l.windowMs, client);
    var k := Key(client, 0);
    var steps := ReadMany(l, [], 0, 2, client);
    assert Ready(Exec(l, steps), 0, 2, k);
    assert 0 in Exec(l, steps).requests && 1 in Exec(l, steps).requests;
    steps := AdmitOne(l, steps, 0, k);
    ExecSnoc(l, steps, Tick(l.windowMs + 1));
    steps := steps + [Tick(l.windowMs + 1)];
    steps := AdmitOne(l, steps, 1, k);
    assert CountedAgain(Exec(l, steps), l, 0, 1);
  }

  /** When INCRs run up to a window late, the whole limits of three windows can be admitted at one instant. */
  lemma LateIncrsBreakTheBound(l: Limits, client: Client)
    requires l.limit > 0
    ensures exists steps :: var s := Exec(l, steps);
      |s.log| == 3 * l.limit && ArrivalsIn(s, client, 2 * l.windowMs, 2 * l.windowMs + 1, |s.log|) == 3 * l.limit
  {
    var steps := ReadThreeWindows(l, client);
    steps := AdmitThreeWindows(l, steps, client);
  }

  lemma AdmitThreeWindows(l: Limits, steps: seq<Step>, client: Client) returns (more: seq<Step>)
    requires var s := Exec(l, steps);
             && s.now == 2 * l.windowMs && s.log == [] && s.store == map[]
             && Ready(s, 0, l.limit, Key(client, 0)) && Ready(s, l.limit, l.limit, Key(client, 1))
             && Ready(s, 2 * l.limit, l.limit, Key(client, 2))
    ensures var s := Exec(l, more);
            |s.log| == 3 * l.limit && ArrivalsIn(s, client, 2 * l.windowMs, 2 * l.windowMs + 1, |s.log|) == 3 * l.limit
  {
    WindowsAt(l.windowMs, client);
    var at := 2 * l.windowMs;
    assert AllArrived(Exec(l, steps), client, at, at + 1) && AtMostLate(Exec(l, steps), l, l.windowMs);
    more := AdmitWindow(l, steps, 0, Key(client, 0), at, at + 1, l.windowMs);
    ReadyKept(Exec(l, steps), Exec(l, more), 0, l.limit, l.limit, l.limit, Key(client, 1));
    ReadyKept(Exec(l, steps), Exec(l, more), 0, l.limit, 2 * l.limit, l.limit, Key(client, 2));
    more := AdmitLastTwo(l, more, client);
  }

  lemma AdmitLastTwo(l: Limits, steps: seq<Step>, client: Client) returns (more: seq<Step>)
    requires var s, at := Exec(l, steps), 2 * l.windowMs;
             && s.now == at && |s.log| == l.limit && s.store.Keys <= {Key(client, 0)}
             && AllArrived(s, client, at, at + 1) && AtMostLate(s, l, l.windowMs)
             && Ready(s, l.limit, l.limit, Key(client, 1)) && Ready(s, 2 * l.limit, l.limit, Key(client, 2))
    ensures var s := Exec(l, more);
            |s.log| == 3 * l.limit && ArrivalsIn(s, client, 2 * l.windowMs, 2 * l.windowMs + 1, |s.log|) == 3 * l.limit
  {
    WindowsAt(l.windowMs, client);
    var at := 2 * l.windowMs;
    more := AdmitTwoWindows(l, steps, l.limit, Key(client, 1), Key(client, 2), at, at + 1, l.windowMs);
    ArrivalsCounted(Exec(l, more), client, at, at + 1, |Exec(l, more).log|);
  }

  lemma ReadThreeWindows(l: Limits, client: Client) returns (steps: seq<Step>)
    ensures var s := Exec(l, steps);
            && s == INIT.(now := 2 * l.windowMs, requests := s.requests)
            && Ready(s, 0, l.limit, Key(client, 0)) && Ready(s, l.limit, l.limit, Key(client, 1))
            && Ready(s, 2 * l.limit, l.limit, Key(client, 2))
  {
    var first, second := Key(client, 0), Key(client, 1);
    WindowsAt(l.windowMs, client);
    steps := ReadMany(l, [], 0, l.limit, client);
    var s0 := Exec(l, steps);
    ExecSnoc(l, steps, Tick(l.windowMs));
    steps := ReadMany(l, steps + [Tick(l.windowMs)], l.limit, l.limit, client);
    var s1 := Exec(l, steps);
    ReadyKept(s0, s1, l.limit, l.limit, 0, l.limit, first);
    ExecSnoc(l, steps, Tick(l.windowMs));
    steps := ReadMany(l, steps + [Tick(l.windowMs)], 2 * l.limit, l.limit, client);
    var s2 := Exec(l, steps);
    ReadyKept(s1, s2, 2 * l.limit, l.limit, 0, l.limit, first);
    ReadyKept(s1, s2, 2 * l.limit, l.limit, l.limit, l.limit, second);
  }
}
