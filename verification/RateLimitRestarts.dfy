/** Exactly when a counter starts again and falls behind the INCRs of its key. */
module RateLimitRestarts {
  import opened Wrappers
  import opened RateLimit

  /** Some INCR of the key, among the first `n`, ran after an executed expiry of it had passed. */
  ghost predicate Passed(s: State, k: Key, n: nat)
    requires n <= |s.log|
  {
    exists j, x :: 0 <= j < n && 0 <= x < |s.expiries| && PassedAt(s, k, j, x)
  }

  predicate PassedAt(s: State, k: Key, j: nat, x: nat)
    requires j < |s.log| && x < |s.expiries|
  {
    s.log[j].key == k && s.expiries[x].key == k && s.expiries[x].deadline < s.log[j].at
  }

  function Raw(store: Store, k: Key): nat {
    if k in store then store[k].count else 0
  }

  ghost predicate Waits(s: State, r: RequestId, k: Key) {
    r in s.requests && s.requests[r].Expiring? && s.requests[r].key == k
  }

  /** While no INCR of the key has met a passed expiry, its life has at most one expiry, set or still to be sent. */
  ghost predicate FirstLife(s: State, k: Key) {
    && Raw(s.store, k) == Rank(s.log, |s.log|, k)
    && (forall x :: 0 <= x < |s.expiries| && s.expiries[x].key == k ==>
          k in s.store && s.store[k].expiresAt == Some(s.expiries[x].deadline))
    && (k in s.store && s.store[k].expiresAt.Some? ==> exists x :: 0 <= x < |s.expiries| && s.expiries[x].key == k)
    && (forall r :: Waits(s, r, k) ==> k in s.store && s.store[k].expiresAt.None?)
    && (forall r, q :: Waits(s, r, k) && Waits(s, q, k) ==> r == q)
  }

  ghost predicate KeyInv(s: State, k: Key) {
    && (k in s.store ==> s.store[k].count > 0)
    && if Passed(s, k, |s.log|) then Raw(s.store, k) < Rank(s.log, |s.log|, k) else FirstLife(s, k)
  }

  ghost predicate CountInv(s: State, i: nat)
    requires i < |s.log|
  {
    var e := s.log[i];
    && e.at <= s.now
    && e.count <= Rank(s.log, i + 1, e.key)
    && (e.count < Rank(s.log, i + 1, e.key) <==> Passed(s, e.key, i + 1))
  }

  ghost predicate RestartInv(s: State) {
    && (forall k :: KeyInv(s, k))
    && forall i :: 0 <= i < |s.log| ==> CountInv(s, i)
  }

  lemma IncrKey(s: State, l: Limits, r: RequestId, k: Key, lost: bool)
    requires KeyInv(s, k) && r in s.requests && s.requests[r] == Windowed(k)
    ensures var t := Incremented(s, l, r, k, lost);
            && KeyInv(t, k)
            && t.log[|s.log|].count <= Rank(t.log, |t.log|, k)
            && (t.log[|s.log|].count < Rank(t.log, |t.log|, k) <==> Passed(t, k, |t.log|))
  {
    var t := Incremented(s, l, r, k, lost);
    RankPrefix(s.log, t.log[|s.log|], |s.log|, k);
    PassedIncr(s, t, k);
    if !Passed(s, k, |s.log|) {
      if k in s.store {
        FirstLifeExpiry(s, k);
      }
      if CountOf(s.store, k, s.now) > 0 || k !in s.store {
        IncrFirstLife(s, l, r, k, lost);
      }
    }
  }

  /** In its first life a counter is gone exactly if one of its expiries has passed. */
  lemma FirstLifeExpiry(s: State, k: Key)
    requires FirstLife(s, k) && k in s.store && s.store[k].count > 0
    ensures CountOf(s.store, k, s.now) == 0 <==>
      exists x :: 0 <= x < |s.expiries| && s.expiries[x].key == k && s.expiries[x].deadline < s.now
  {
  }

  lemma IncrFirstLife(s: State, l: Limits, r: RequestId, k: Key, lost: bool)
    requires FirstLife(s, k) && r in s.requests && s.requests[r] == Windowed(k)
    requires Rank(s.log + [Entry(k, s.now, CountOf(s.store, k, s.now) + 1)], |s.log| + 1, k) == Rank(s.log, |s.log|, k) + 1
    requires CountOf(s.store, k, s.now) > 0 || k !in s.store
    ensures FirstLife(Incremented(s, l, r, k, lost), k)
  {
    var t := Incremented(s, l, r, k, lost);
    assert forall q :: Waits(t, q, k) ==> q == r || Waits(s, q, k);
  }

  /** One more INCR of the key: a passed expiry was met before, or is met now. */
  lemma PassedIncr(s: State, t: State, k: Key)
    requires |t.log| == |s.log| + 1 && t.log[..|s.log|] == s.log && t.expiries == s.expiries
    requires t.log[|s.log|].key == k && t.log[|s.log|].at == s.now
    ensures Passed(t, k, |t.log|) <==>
      Passed(s, k, |s.log|) || exists x :: 0 <= x < |s.expiries| && s.expiries[x].key == k && s.expiries[x].deadline < s.now
  {
    var n := |s.log|;
    assert forall j :: 0 <= j < n ==> t.log[j] == s.log[j];
    if j, x :| 0 <= j < n && 0 <= x < |s.expiries| && PassedAt(s, k, j, x) {
      assert PassedAt(t, k, j, x);
    }
    if x :| 0 <= x < |s.expiries| && s.expiries[x].key == k && s.expiries[x].deadline < s.now {
      assert PassedAt(t, k, n, x);
    }
    if j, x :| 0 <= j < n + 1 && 0 <= x < |s.expiries| && PassedAt(t, k, j, x) {
      assert j < n ==> PassedAt(s, k, j, x);
    }
  }

  /** What has been met so far does not change when INCRs or expiries still to come are added. */
  lemma PassedFrame(s: State, t: State, k: Key, n: nat)
    requires n <= |s.log| <= |t.log| && t.log[..|s.log|] == s.log
    requires |s.expiries| <= |t.expiries| && t.expiries[..|s.expiries|] == s.expiries
    requires forall i :: 0 <= i < n ==> s.log[i].at <= s.now
    requires forall x :: |s.expiries| <= x < |t.expiries| ==> t.expiries[x].deadline >= s.now
    ensures Passed(t, k, n) <==> Passed(s, k, n)
  {
    assert forall j :: 0 <= j < n ==> t.log[j] == s.log[j];
    assert forall x :: 0 <= x < |s.expiries| ==> t.expiries[x] == s.expiries[x];
    if j, x :| 0 <= j < n && 0 <= x < |s.expiries| && PassedAt(s, k, j, x) {
      assert PassedAt(t, k, j, x);
    }
    if j, x :| 0 <= j < n && 0 <= x < |t.expiries| && PassedAt(t, k, j, x) {
      assert PassedAt(s, k, j, x);
    }
  }

  /** A key none of whose INCRs, expiries or pending requests change keeps what is known of it. */
  lemma KeyFrame(s: State, t: State, k: Key)
    requires KeyInv(s, k)
    requires k in s.store <==> k in t.store
    requires k in s.store ==> t.store[k] == s.store[k]
    requires Rank(t.log, |t.log|, k) == Rank(s.log, |s.log|, k)
    requires Passed(t, k, |t.log|) <==> Passed(s, k, |s.log|)
    requires forall r :: Waits(t, r, k) ==> Waits(s, r, k)
    requires forall e :: e in t.expiries && e.key == k <==> e in s.expiries && e.key == k
    ensures KeyInv(t, k)
  {
    forall x | 0 <= x < |t.expiries| && t.expiries[x].key == k
      ensures t.expiries[x] in s.expiries
    {
      assert t.expiries[x] in t.expiries;
    }
    if x :| 0 <= x < |s.expiries| && s.expiries[x].key == k {
      assert s.expiries[x] in t.expiries;
    }
  }

  lemma IncrOtherKey(s: State, l: Limits, r: RequestId, k: Key, lost: bool, other: Key)
    requires KeyInv(s, other) && other != k && r in s.requests && s.requests[r] == Windowed(k)
    ensures KeyInv(Incremented(s, l, r, k, lost), other)
  {
    var t := Incremented(s, l, r, k, lost);
    RankPrefix(s.log, t.log[|s.log|], |s.log|, other);
    assert forall j :: 0 <= j < |s.log| ==> t.log[j] == s.log[j];
    if j, x :| 0 <= j < |s.log| && 0 <= x < |s.expiries| && PassedAt(s, other, j, x) {
      assert PassedAt(t, other, j, x);
    }
    if j, x :| 0 <= j < |t.log| && 0 <= x < |s.expiries| && PassedAt(t, other, j, x) {
      assert PassedAt(s, other, j, x);
    }
    KeyFrame(s, t, other);
  }

  lemma CountFrame(s: State, t: State, i: nat)
    requires i < |s.log| <= |t.log| && CountInv(s, i) && t.log[..|s.log|] == s.log && t.now >= s.now
    requires forall j :: 0 <= j < |s.log| ==> s.log[j].at <= s.now
    requires |s.expiries| <= |t.expiries| && t.expiries[..|s.expiries|] == s.expiries
    requires forall x :: |s.expiries| <= x < |t.expiries| ==> t.expiries[x].deadline >= s.now
    ensures CountInv(t, i)
  {
    assert t.log[i] == s.log[i];
    RankOfPrefix(s.log, t.log, i + 1, s.log[i].key);
    PassedFrame(s, t, s.log[i].key, i + 1);
  }

  lemma {:induction false} RankOfPrefix(a: seq<Entry>, b: seq<Entry>, n: nat, k: Key)
    requires n <= |a| <= |b| && b[..|a|] == a
    ensures Rank(b, n, k) == Rank(a, n, k)
  {
    if n > 0 {
      assert b[n - 1] == a[n - 1];
      RankOfPrefix(a, b, n - 1, k);
    }
  }

  lemma LogIsPast(s: State)
    requires RestartInv(s)
    ensures forall j :: 0 <= j < |s.log| ==> s.log[j].at <= s.now
  {
    forall j: nat | j < |s.log|
      ensures s.log[j].at <= s.now
    {
      assert CountInv(s, j);
    }
  }

  lemma IncrRestart(s: State, l: Limits, r: RequestId, k: Key, lost: bool)
    requires RestartInv(s) && r in s.requests && s.requests[r] == Windowed(k)
    ensures RestartInv(Incremented(s, l, r, k, lost))
  {
    var t := Incremented(s, l, r, k, lost);
    assert t.log[..|s.log|] == s.log;
    LogIsPast(s);
    assert KeyInv(s, k);
    IncrKey(s, l, r, k, lost);
    forall other
      ensures KeyInv(t, other)
    {
      assert KeyInv(s, other);
      if other != k {
        IncrOtherKey(s, l, r, k, lost, other);
      }
    }
    forall i: nat | i < |t.log|
      ensures CountInv(t, i)
    {
      if i < |s.log| {
        CountFrame(s, t, i);
      }
    }
  }

  /** The step of EXPIRE. */
  lemma ExpireRestart(s: State, l: Limits, r: RequestId, executed: bool, replied: bool)
    requires RestartInv(s) && r in s.requests && s.requests[r].Expiring?
    ensures RestartInv(Apply(s, l, SendExpire(r, executed, replied)))
  {
    var t := Apply(s, l, SendExpire(r, executed, replied));
    var k := s.requests[r].key;
    LogIsPast(s);
    forall other
      ensures KeyInv(t, other)
    {
      assert KeyInv(s, other);
      PassedFrame(s, t, other, |s.log|);
      if other != k || !executed {
        KeyFrame(s, t, other);
      } else {
        ExpireKey(s, t, l, r);
      }
    }
    forall i: nat | i < |t.log|
      ensures CountInv(t, i)
    {
      CountFrame(s, t, i);
    }
  }

  lemma ExpireKey(s: State, t: State, l: Limits, r: RequestId)
    requires r in s.requests && s.requests[r].Expiring? && KeyInv(s, s.requests[r].key)
    requires var k := s.requests[r].key;
             && t.store == AfterExpire(s.store, k, s.now, l.windowMs) && t.log == s.log
             && t.requests == s.requests[r := Done] && t.expiries == s.expiries + [Expiry(k, s.now + l.windowMs)]
             && (Passed(t, k, |t.log|) <==> Passed(s, k, |s.log|))
    ensures KeyInv(t, s.requests[r].key)
  {
    var k := s.requests[r].key;
    assert Waits(s, r, k);
    assert forall q :: Waits(t, q, k) ==> q != r && Waits(s, q, k);
    if !Passed(s, k, |s.log|) {
      assert CountOf(s.store, k, s.now) > 0;
      forall x | 0 <= x < |s.expiries|
        ensures s.expiries[x].key != k
      {
      }
      assert t.expiries[|s.expiries|].key == k;
    }
  }

  lemma RestartFrame(s: State, t: State)
    requires RestartInv(s) && t.log == s.log && t.store == s.store && t.expiries == s.expiries && t.now >= s.now
    requires forall r, k :: Waits(t, r, k) ==> Waits(s, r, k)
    ensures RestartInv(t)
  {
    LogIsPast(s);
    forall k
      ensures KeyInv(t, k)
    {
      assert KeyInv(s, k);
      PassedFrame(s, t, k, |s.log|);
      KeyFrame(s, t, k);
    }
    forall i: nat | i < |t.log|
      ensures CountInv(t, i)
    {
      CountFrame(s, t, i);
    }
  }

  lemma RestartStep(s: State, l: Limits, a: Step)
    requires RestartInv(s)
    ensures RestartInv(Apply(s, l, a))
  {
    if a.SendIncr? && a.r in s.requests && s.requests[a.r].Windowed? {
      IncrRestart(s, l, a.r, s.requests[a.r].key, a.lost);
    } else if a.SendExpire? && a.r in s.requests && s.requests[a.r].Expiring? {
      ExpireRestart(s, l, a.r, a.executed, a.replied);
    } else {
      RestartFrame(s, Apply(s, l, a));
    }
  }

  lemma {:induction false} RestartAlways(l: Limits, steps: seq<Step>)
    ensures RestartInv(Exec(l, steps))
  {
    if steps != [] {
      RestartAlways(l, steps[..|steps| - 1]);
      RestartStep(Exec(l, steps[..|steps| - 1]), l, steps[|steps| - 1]);
    }
  }

  /**
   * A counter never runs ahead of the INCRs of its key, and it has fallen behind them exactly if one of
   * them, up to this one, found an executed expiry of the key passed.
   */
  lemma CountRestartsExactly(l: Limits, steps: seq<Step>, s: State, i: nat)
    requires s == Exec(l, steps) && i < |s.log|
    ensures var e := s.log[i];
            && e.count <= Rank(s.log, i + 1, e.key)
            && (e.count != Rank(s.log, i + 1, e.key) <==> Passed(s, e.key, i + 1))
  {
    RestartAlways(l, steps);
    assert CountInv(s, i);
  }
}
