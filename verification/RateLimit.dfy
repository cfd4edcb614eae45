/**
 * The fixed-window limiter: one limiter's counters in Redis, with reading the clock, INCR and EXPIRE as
 * separate steps of any number of concurrent requests on one clock that never goes back.
 */
module RateLimit {
  import opened Wrappers

  type Client = string
  type RequestId = nat

  type Positive = n: int | n > 0 witness 1

  /** `windowMs` is the window length in milliseconds; EXPIRE is given the same length in seconds. */
  datatype Limits = Limits(limit: nat, windowMs: Positive)

  datatype Counter = Counter(count: nat, expiresAt: Option<nat>)

  datatype Key = Key(client: Client, window: nat)

  type Store = map<Key, Counter>

  /** The value INCR sees: a key is gone once the clock is past its expiry. */
  function CountOf(store: Store, k: Key, now: nat): nat {
    if k in store && (store[k].expiresAt.None? || now <= store[k].expiresAt.value) then store[k].count else 0
  }

  function AfterIncr(store: Store, k: Key, now: nat): Store {
    if CountOf(store, k, now) == 0 then store[k := Counter(1, None)]
    else store[k := store[k].(count := store[k].count + 1)]
  }

  function AfterExpire(store: Store, k: Key, now: nat, windowMs: Positive): Store {
    if CountOf(store, k, now) == 0 then store
    else store[k := store[k].(expiresAt := Some(now + windowMs))]
  }

  function WindowOf(now: nat, windowMs: Positive): nat {
    now / windowMs
  }

  datatype Verdict = Admitted | Refused | FailedOpen

  /** What the client is told, header by header; an unavailable Redis sets no header at all. */
  datatype Reply = Reply(verdict: Verdict, limit: Option<nat>, remaining: Option<nat>, retryAfterMs: Option<nat>)

  const UNCOUNTED := Reply(FailedOpen, None, None, None)

  function ReplyFor(l: Limits, count: nat): Reply {
    Reply(if count > l.limit then Refused else Admitted,
          Some(l.limit),
          Some(if count <= l.limit then l.limit - count else 0),
          if count > l.limit then Some(l.windowMs) else None)
  }

  datatype Fault = NoFault | IncrFails | ExpireFails

  /** One request run without interleaving: the store it leaves and what the client is told. */
  function Handled(l: Limits, store: Store, client: Client, now: nat, fault: Fault): (Store, Reply) {
    var k := Key(client, WindowOf(now, l.windowMs));
    var count := CountOf(store, k, now) + 1;
    var counted := AfterIncr(store, k, now);
    if fault.IncrFails? then (store, UNCOUNTED)
    else if count > 1 then (counted, ReplyFor(l, count))
    else if fault.ExpireFails? then (counted, UNCOUNTED)
    else (AfterExpire(counted, k, now, l.windowMs), ReplyFor(l, 1))
  }

  /** The request handler run without interleaving, against the store in Redis. */
  class Limiter {
    const limits: Limits
    const connected: bool
    var store: Store

    /** `connected` says whether the limiter was given a Redis client at all. */
    constructor (limits: Limits, connected: bool)
      ensures this.limits == limits && this.connected == connected && store == map[]
    {
      this.limits := limits;
      this.connected := connected;
      store := map[];
    }

    method Incr(k: Key, now: nat) returns (count: nat)
      modifies this
      ensures store == AfterIncr(old(store), k, now)
      ensures count == CountOf(old(store), k, now) + 1
    {
      if k in store && (store[k].expiresAt.None? || now <= store[k].expiresAt.value) && store[k].count > 0 {
        count := store[k].count + 1;
        store := store[k := store[k].(count := count)];
      } else {
        count := 1;
        store := store[k := Counter(1, None)];
      }
    }

    method Handle(client: Client, now: nat, fault: Fault) returns (reply: Reply)
      modifies this
      ensures (store, reply) == if connected then Handled(limits, old(store), client, now, fault) else (old(store), UNCOUNTED)
    {
      if !connected {
        return UNCOUNTED;
      }
      var k := Key(client, now / limits.windowMs);
      if fault.IncrFails? {
        return UNCOUNTED;
      }
      var count := Incr(k, now);
      if count == 1 {
        if fault.ExpireFails? {
          return UNCOUNTED;
        }
        store := store[k := store[k].(expiresAt := Some(now + limits.windowMs))];
      }
      var remaining := if limits.limit < count then 0 else limits.limit - count;
      if count > limits.limit {
        return Reply(Refused, Some(limits.limit), Some(remaining), Some(limits.windowMs));
      }
      return Reply(Admitted, Some(limits.limit), Some(remaining), None);
    }
  }

  /** Where a request stands between its awaits. */
  datatype Stage = Windowed(key: Key) | Expiring(key: Key, entry: nat) | Done

  /** One INCR that Redis executed: its key, when, and the count it returned. */
  datatype Entry = Entry(key: Key, at: nat, count: nat)

  /** One EXPIRE that Redis executed. */
  datatype Expiry = Expiry(key: Key, deadline: nat)

  /**
   * `log`, `verdicts` and `expiries` are history: every INCR in order, the verdict of the request that sent
   * it, and every EXPIRE.
   */
  datatype State = State(
    now: nat,
    store: Store,
    requests: map<RequestId, Stage>,
    log: seq<Entry>,
    verdicts: map<nat, Verdict>,
    expiries: seq<Expiry>,
    uncounted: nat)

  const INIT := State(0, map[], map[], [], map[], [], 0)

  /**
   * `SendIncr` with `lost` is executed by Redis but its reply never arrives; `IncrRefused` is not executed.
   * `SendExpire` may be executed or not, and its reply may arrive or not.
   */
  datatype Step =
    | Tick(elapsed: nat)
    | ReadClock(r: RequestId, client: Client)
    | SendIncr(r: RequestId, lost: bool)
    | IncrRefused(r: RequestId)
    | SendExpire(r: RequestId, executed: bool, replied: bool)

  function VerdictOf(l: Limits, count: nat): Verdict {
    if count > l.limit then Refused else Admitted
  }

  function Incremented(s: State, l: Limits, r: RequestId, k: Key, lost: bool): State {
    var count := CountOf(s.store, k, s.now) + 1;
    var at := |s.log|;
    var counted := s.(store := AfterIncr(s.store, k, s.now), log := s.log + [Entry(k, s.now, count)]);
    if lost then counted.(requests := s.requests[r := Done], verdicts := s.verdicts[at := FailedOpen])
    else if count == 1 then counted.(requests := s.requests[r := Expiring(k, at)])
    else counted.(requests := s.requests[r := Done], verdicts := s.verdicts[at := VerdictOf(l, count)])
  }

  function Apply(s: State, l: Limits, a: Step): State {
    match a
    case Tick(elapsed) => s.(now := s.now + elapsed)
    case ReadClock(r, client) =>
      if r in s.requests then s
      else s.(requests := s.requests[r := Windowed(Key(client, WindowOf(s.now, l.windowMs)))])
    case SendIncr(r, lost) =>
      if r in s.requests && s.requests[r].Windowed? then Incremented(s, l, r, s.requests[r].key, lost) else s
    case IncrRefused(r) =>
      if r in s.requests && s.requests[r].Windowed?
      then s.(requests := s.requests[r := Done], uncounted := s.uncounted + 1)
      else s
    case SendExpire(r, executed, replied) =>
      if r in s.requests && s.requests[r].Expiring? then
        var st := s.requests[r];
        s.(store := if executed then AfterExpire(s.store, st.key, s.now, l.windowMs) else s.store,
           requests := s.requests[r := Done],
           expiries := if executed then s.expiries + [Expiry(st.key, s.now + l.windowMs)] else s.expiries,
           verdicts := s.verdicts[st.entry := if replied then VerdictOf(l, 1) else FailedOpen])
      else s
  }

  function Exec(l: Limits, steps: seq<Step>): State {
    if steps == [] then INIT else Apply(Exec(l, steps[..|steps| - 1]), l, steps[|steps| - 1])
  }

  /**
   * What the client is told: refused exactly if nothing failed and the count is past the limit, and let through
   * otherwise; no header when a command failed, and else the limit, what is left of it, and when to retry
   * exactly on refusal.
   */
  lemma ReplyAgrees(l: Limits, store: Store, client: Client, now: nat, fault: Fault)
    ensures var count := CountOf(store, Key(client, now / l.windowMs), now) + 1;
            var failed := fault.IncrFails? || (fault.ExpireFails? && count == 1);
            var reply := Handled(l, store, client, now, fault).1;
            && (reply.verdict == Refused <==> !failed && count > l.limit)
            && (reply.verdict == Admitted <==> !failed && count <= l.limit)
            && (failed ==> reply.limit.None? && reply.remaining.None? && reply.retryAfterMs.None?)
            && (!failed ==>
                  && reply.limit == Some(l.limit)
                  && reply.remaining.Some? && (count <= l.limit ==> reply.remaining.value + count == l.limit)
                  && (count > l.limit ==> reply.remaining.value == 0)
                  && (reply.retryAfterMs == if reply.verdict == Refused then Some(l.windowMs) else None))
  {
  }

  /** The same request as steps of the machine, one for the clock and one for each command. */
  function StepsOf(r: RequestId, client: Client, fault: Fault): (Step, Step, Step) {
    (ReadClock(r, client),
     if fault.IncrFails? then IncrRefused(r) else SendIncr(r, false),
     SendExpire(r, !fault.ExpireFails?, !fault.ExpireFails?))
  }

  /** Run alone, the handler and its steps leave the same store and give the same verdict. */
  lemma HandlerIsSteps(l: Limits, s: State, r: RequestId, client: Client, fault: Fault)
    requires r !in s.requests
    ensures var (a, b, c) := StepsOf(r, client, fault);
            var k := Key(client, WindowOf(s.now, l.windowMs));
            var t := Apply(Apply(Apply(s, l, a), l, b), l, c);
            var (store, reply) := Handled(l, s.store, client, s.now, fault);
            && t.store == store && t.requests == s.requests[r := Done] && t.now == s.now
            && (fault.IncrFails? ==> t.log == s.log && t.verdicts == s.verdicts && t.uncounted == s.uncounted + 1)
            && (!fault.IncrFails? ==>
                  && t.verdicts == s.verdicts[|s.log| := reply.verdict] && t.uncounted == s.uncounted
                  && t.log == s.log + [Entry(k, s.now, CountOf(s.store, k, s.now) + 1)])
  {
    var (a, b, c) := StepsOf(r, client, fault);
    var read := Apply(s, l, a);
    assert read.requests[r] == Windowed(Key(client, WindowOf(s.now, l.windowMs)));
    var counted := Apply(read, l, b);
    assert counted.requests[r].Done? || counted.requests[r].Expiring?;
  }

  function EndOf(k: Key, windowMs: Positive): nat {
    (k.window + 1) * windowMs
  }

  /** How many of the first `n` INCRs were on the key. */
  function Rank(log: seq<Entry>, n: nat, k: Key): nat
    requires n <= |log|
  {
    if n == 0 then 0 else Rank(log, n - 1, k) + if log[n - 1].key == k then 1 else 0
  }

  /** The INCR ran no later than the end of the window its request computed. */
  predicate OnTime(e: Entry, windowMs: Positive) {
    e.at <= EndOf(e.key, windowMs)
  }

  ghost predicate StoreInv(s: State, windowMs: Positive) {
    forall k :: s.now <= EndOf(k, windowMs) ==>
      && CountOf(s.store, k, s.now) == Rank(s.log, |s.log|, k)
      && (k in s.store && s.store[k].expiresAt.Some? ==> s.store[k].expiresAt.value >= EndOf(k, windowMs))
  }

  ghost predicate EntryInv(s: State, l: Limits, i: nat)
    requires i < |s.log|
  {
    var e := s.log[i];
    && e.key.window <= WindowOf(e.at, l.windowMs)
    && e.at <= s.now
    && e.count > 0
    && (OnTime(e, l.windowMs) ==> e.count == Rank(s.log, i + 1, e.key))
    && (i in s.verdicts && s.verdicts[i] != FailedOpen ==> s.verdicts[i] == VerdictOf(l, e.count))
  }

  ghost predicate Inv(s: State, l: Limits) {
    && StoreInv(s, l.windowMs)
    && (forall i :: 0 <= i < |s.log| ==> EntryInv(s, l, i))
    && (forall r :: r in s.requests && !s.requests[r].Done? ==> s.requests[r].key.window <= WindowOf(s.now, l.windowMs))
    && (forall r :: r in s.requests && s.requests[r].Expiring? ==>
          && s.requests[r].entry < |s.log|
          && s.log[s.requests[r].entry].key == s.requests[r].key
          && s.log[s.requests[r].entry].count == 1)
    && (forall i :: i in s.verdicts ==> i < |s.log|)
  }

  lemma {:induction false} RankPrefix(log: seq<Entry>, e: Entry, n: nat, k: Key)
    requires n <= |log|
    ensures Rank(log + [e], n, k) == Rank(log, n, k)
  {
    if n > 0 {
      RankPrefix(log, e, n - 1, k);
    }
  }

  lemma {:induction false} MulMonotone(a: nat, b: nat, m: nat)
    requires a <= b
    ensures a * m <= b * m
  {
    if a < b {
      MulMonotone(a, b - 1, m);
      NextMultiple(b - 1, m);
    }
  }

  lemma NextMultiple(a: nat, m: nat)
    ensures (a + 1) * m == a * m + m
  {
  }

  lemma WindowBounds(now: nat, windowMs: Positive, w: nat)
    ensures w == WindowOf(now, windowMs) <==> w * windowMs <= now < (w + 1) * windowMs
    ensures w <= WindowOf(now, windowMs) <==> w * windowMs <= now
  {
    var q := now / windowMs;
    NextMultiple(w, windowMs);
    NextMultiple(q, windowMs);
    if w < q {
      MulMonotone(w + 1, q, windowMs);
    } else if w > q {
      MulMonotone(q + 1, w, windowMs);
    }
  }

  /** An expiry set inside or after the window never ends before the window does. */
  lemma ExpiryCoversWindow(s: State, l: Limits, k: Key)
    requires k.window <= WindowOf(s.now, l.windowMs)
    ensures s.now + l.windowMs >= EndOf(k, l.windowMs)
  {
    WindowBounds(s.now, l.windowMs, k.window);
  }

  lemma IncrStore(s: State, l: Limits, r: RequestId, k: Key, lost: bool)
    requires StoreInv(s, l.windowMs)
    ensures StoreInv(Incremented(s, l, r, k, lost), l.windowMs)
  {
    var t := Incremented(s, l, r, k, lost);
    var n := |s.log|;
    assert t.now == s.now && t.store == AfterIncr(s.store, k, s.now);
    forall j | t.now <= EndOf(j, l.windowMs)
      ensures CountOf(t.store, j, t.now) == Rank(t.log, n + 1, j)
      ensures j in t.store && t.store[j].expiresAt.Some? ==> t.store[j].expiresAt.value >= EndOf(j, l.windowMs)
    {
      RankPrefix(s.log, t.log[n], n, j);
    }
  }

  lemma IncrEntries(s: State, l: Limits, r: RequestId, k: Key, lost: bool, i: nat)
    requires Inv(s, l) && r in s.requests && s.requests[r] == Windowed(k)
    requires i <= |s.log|
    ensures EntryInv(Incremented(s, l, r, k, lost), l, i)
  {
    var t := Incremented(s, l, r, k, lost);
    var n := |s.log|;
    if i < n {
      assert EntryInv(s, l, i) && t.log[i] == s.log[i];
      RankPrefix(s.log, t.log[n], i + 1, t.log[i].key);
    } else {
      RankPrefix(s.log, t.log[n], n, k);
    }
  }

  lemma IncrKeeps(s: State, l: Limits, r: RequestId, k: Key, lost: bool)
    requires Inv(s, l) && r in s.requests && s.requests[r] == Windowed(k)
    ensures Inv(Incremented(s, l, r, k, lost), l)
  {
    var t := Incremented(s, l, r, k, lost);
    IncrStore(s, l, r, k, lost);
    forall i: nat | i < |t.log|
      ensures EntryInv(t, l, i)
    {
      IncrEntries(s, l, r, k, lost, i);
    }
    assert forall i :: 0 <= i < |s.log| ==> t.log[i] == s.log[i];
  }

  lemma EntriesFrame(s: State, t: State, l: Limits)
    requires forall i :: 0 <= i < |s.log| ==> EntryInv(s, l, i)
    requires t.log == s.log && t.verdicts == s.verdicts && t.now >= s.now
    ensures forall i :: 0 <= i < |t.log| ==> EntryInv(t, l, i)
  {
    forall i: nat | i < |t.log|
      ensures EntryInv(t, l, i)
    {
      assert EntryInv(s, l, i);
    }
  }

  lemma ExpireKeeps(s: State, l: Limits, r: RequestId, executed: bool, replied: bool)
    requires Inv(s, l) && r in s.requests && s.requests[r].Expiring?
    ensures Inv(Apply(s, l, SendExpire(r, executed, replied)), l)
  {
    var t := Apply(s, l, SendExpire(r, executed, replied));
    ExpiryCoversWindow(s, l, s.requests[r].key);
    forall i: nat | i < |t.log|
      ensures EntryInv(t, l, i)
    {
      assert EntryInv(s, l, i);
    }
  }

  lemma ApplyKeeps(s: State, l: Limits, a: Step)
    requires Inv(s, l)
    ensures Inv(Apply(s, l, a), l)
  {
    match a {
      case Tick(elapsed) =>
        TickKeeps(s, l, elapsed);
      case ReadClock(r, client) =>
        EntriesFrame(s, Apply(s, l, a), l);
      case SendIncr(r, lost) =>
        if r in s.requests && s.requests[r].Windowed? {
          IncrKeeps(s, l, r, s.requests[r].key, lost);
        }
      case IncrRefused(_) =>
        EntriesFrame(s, Apply(s, l, a), l);
      case SendExpire(r, executed, replied) =>
        if r in s.requests && s.requests[r].Expiring? {
          ExpireKeeps(s, l, r, executed, replied);
        }
    }
  }

  lemma TickKeeps(s: State, l: Limits, elapsed: nat)
    requires Inv(s, l)
    ensures Inv(s.(now := s.now + elapsed), l)
  {
    var t := s.(now := s.now + elapsed);
    forall k | t.now <= EndOf(k, l.windowMs)
      ensures CountOf(t.store, k, t.now) == Rank(t.log, |t.log|, k)
    {
      assert CountOf(s.store, k, s.now) == Rank(s.log, |s.log|, k);
    }
    EntriesFrame(s, t, l);
    forall r | r in t.requests && !t.requests[r].Done?
      ensures t.requests[r].key.window <= WindowOf(t.now, l.windowMs)
    {
      WindowBounds(s.now, l.windowMs, t.requests[r].key.window);
      WindowBounds(t.now, l.windowMs, t.requests[r].key.window);
    }
  }

  lemma {:induction false} ExecKeeps(l: Limits, steps: seq<Step>)
    ensures Inv(Exec(l, steps), l)
  {
    if steps != [] {
      ExecKeeps(l, steps[..|steps| - 1]);
      ApplyKeeps(Exec(l, steps[..|steps| - 1]), l, steps[|steps| - 1]);
    }
  }

  /** The requests decided on their count: exactly the first `limit` on-time INCRs of a key are admitted. */
  lemma FirstLimitAdmitted(l: Limits, steps: seq<Step>, s: State, i: nat)
    requires s == Exec(l, steps)
    requires i < |s.log| && OnTime(s.log[i], l.windowMs) && i in s.verdicts && s.verdicts[i] != FailedOpen
    ensures s.log[i].count == Rank(s.log, i + 1, s.log[i].key)
    ensures s.log[i].at < EndOf(s.log[i].key, l.windowMs) ==> s.log[i].key.window == WindowOf(s.log[i].at, l.windowMs)
    ensures s.verdicts[i] == Admitted <==> Rank(s.log, i + 1, s.log[i].key) <= l.limit
  {
    ExecKeeps(l, steps);
    assert EntryInv(s, l, i);
    WindowBounds(s.log[i].at, l.windowMs, s.log[i].key.window);
  }

  /** On-time INCRs of one key that were within the limit, among the first `n`. */
  function WithinLimit(log: seq<Entry>, l: Limits, k: Key, n: nat): nat
    requires n <= |log|
  {
    if n == 0 then 0
    else WithinLimit(log, l, k, n - 1)
         + if log[n - 1].key == k && OnTime(log[n - 1], l.windowMs) && log[n - 1].count <= l.limit then 1 else 0
  }

  lemma {:induction false} WithinLimitBound(s: State, l: Limits, k: Key, n: nat)
    requires Inv(s, l) && n <= |s.log|
    ensures WithinLimit(s.log, l, k, n) <= l.limit && WithinLimit(s.log, l, k, n) <= Rank(s.log, n, k)
  {
    if n > 0 {
      WithinLimitBound(s, l, k, n - 1);
      assert EntryInv(s, l, n - 1);
    }
  }

  /** An arrival of the client, between `from` and `to`, that its count admitted. */
  ghost predicate ArrivalAt(s: State, client: Client, from: nat, to: nat, i: nat)
    requires i < |s.log|
  {
    && s.log[i].key.client == client
    && from <= s.log[i].at < to
    && i in s.verdicts && s.verdicts[i] == Admitted
  }

  /** The same, counted in the window it was meant for. */
  ghost predicate AdmittedAt(s: State, l: Limits, client: Client, from: nat, to: nat, i: nat)
    requires i < |s.log|
  {
    ArrivalAt(s, client, from, to, i) && OnTime(s.log[i], l.windowMs)
  }

  ghost function ArrivalsIn(s: State, client: Client, from: nat, to: nat, n: nat): nat
    requires n <= |s.log|
  {
    if n == 0 then 0
    else ArrivalsIn(s, client, from, to, n - 1) + if ArrivalAt(s, client, from, to, n - 1) then 1 else 0
  }

  ghost function AdmittedIn(s: State, l: Limits, client: Client, from: nat, to: nat, n: nat): nat
    requires n <= |s.log|
  {
    if n == 0 then 0
    else AdmittedIn(s, l, client, from, to, n - 1) + if AdmittedAt(s, l, client, from, to, n - 1) then 1 else 0
  }

  /** The earlier of the two windows a span of one window length, from here on, can draw on. */
  function EarlierWindow(from: nat, windowMs: Positive): nat {
    if from == 0 then 0 else WindowOf(from - 1, windowMs)
  }

  lemma {:induction false} TwoWindowsCover(s: State, l: Limits, client: Client, from: nat, n: nat)
    requires Inv(s, l) && n <= |s.log|
    ensures var w := EarlierWindow(from, l.windowMs);
            AdmittedIn(s, l, client, from, from + l.windowMs, n)
            <= WithinLimit(s.log, l, Key(client, w), n) + WithinLimit(s.log, l, Key(client, w + 1), n)
  {
    if n > 0 {
      TwoWindowsCover(s, l, client, from, n - 1);
      assert EntryInv(s, l, n - 1);
      if AdmittedAt(s, l, client, from, from + l.windowMs, n - 1) {
        var e := s.log[n - 1];
        WindowBounds(e.at, l.windowMs, e.key.window);
        SpanDrawsOnTwoWindows(from, e.at, e.key.window, l.windowMs);
        assert e.key == Key(client, e.key.window);
      }
    }
  }

  lemma SpanDrawsOnTwoWindows(from: nat, at: nat, w: nat, windowMs: Positive)
    requires from <= at < from + windowMs && w * windowMs <= at <= (w + 1) * windowMs
    ensures EarlierWindow(from, windowMs) <= w <= EarlierWindow(from, windowMs) + 1
  {
    var v := EarlierWindow(from, windowMs);
    WindowBounds(if from == 0 then 0 else from - 1, windowMs, v);
    NextMultiple(v, windowMs);
    NextMultiple(v + 1, windowMs);
    if w < v {
      MulMonotone(w + 1, v, windowMs);
    } else if w > v + 1 {
      MulMonotone(v + 2, w, windowMs);
    }
  }

  /** Arrivals admitted although Redis ran their INCR after its window. */
  ghost function LateIn(s: State, l: Limits, client: Client, from: nat, to: nat, n: nat): nat
    requires n <= |s.log|
  {
    if n == 0 then 0
    else LateIn(s, l, client, from, to, n - 1)
         + if ArrivalAt(s, client, from, to, n - 1) && !OnTime(s.log[n - 1], l.windowMs) then 1 else 0
  }

  lemma {:induction false} ArrivalsAddUp(s: State, l: Limits, client: Client, from: nat, to: nat, n: nat)
    requires n <= |s.log|
    ensures ArrivalsIn(s, client, from, to, n) == AdmittedIn(s, l, client, from, to, n) + LateIn(s, l, client, from, to, n)
  {
    if n > 0 {
      ArrivalsAddUp(s, l, client, from, to, n - 1);
    }
  }

  /**
   * The boundary claim: in any span of one window length a client gets at most twice the limit through on
   * its count, apart from INCRs that Redis ran after the end of the window they were meant for.
   */
  lemma AtMostTwiceTheLimit(l: Limits, steps: seq<Step>, client: Client, from: nat)
    ensures var s, to := Exec(l, steps), from + l.windowMs;
            && AdmittedIn(s, l, client, from, to, |s.log|) <= 2 * l.limit
            && ArrivalsIn(s, client, from, to, |s.log|) <= 2 * l.limit + LateIn(s, l, client, from, to, |s.log|)
  {
    ExecKeeps(l, steps);
    var s := Exec(l, steps);
    TwiceInState(s, l, client, from);
    ArrivalsAddUp(s, l, client, from, from + l.windowMs, |s.log|);
  }

  lemma TwiceInState(s: State, l: Limits, client: Client, from: nat)
    requires Inv(s, l)
    ensures AdmittedIn(s, l, client, from, from + l.windowMs, |s.log|) <= 2 * l.limit
  {
    var w := EarlierWindow(from, l.windowMs);
    TwoWindowsCover(s, l, client, from, |s.log|);
    WithinLimitBound(s, l, Key(client, w), |s.log|);
    WithinLimitBound(s, l, Key(client, w + 1), |s.log|);
  }

  lemma ExecSnoc(l: Limits, steps: seq<Step>, a: Step)
    ensures Exec(l, steps + [a]) == Apply(Exec(l, steps), l, a)
  {
    assert (steps + [a])[..|steps|] == steps;
  }
}
