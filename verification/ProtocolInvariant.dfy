/** What every schedule keeps true of the protocol machine. */
module ProtocolInvariant {
  import opened Wrappers
  import opened JobEvents
  import opened EventStream
  import opened Worker
  import opened Protocol

  ghost predicate JobInv(log: seq<Command>, j: JobId, job: Job) {
    && job.made + 1 <= (if job.attempts == 0 then 1 else job.attempts)
    && (job.stage.Waiting? || job.stage.Starting? || job.stage.Running? || job.stage.Announcing? ==> job.announced.None?)
    && (job.stage.Announcing? || job.stage.Counting? ==> Announces(job.stage.exit, job.attempts, job.made))
    && (job.stage.Counting? ==> job.announced == Some(OutcomeOf(job.stage.exit)))
    && (job.stage.Leaving? ==>
          job.announced == if Announces(job.stage.exit, job.attempts, job.made)
                           then Some(OutcomeOf(job.stage.exit)) else None)
    && (job.announced.Some? ==> IsOutcome(job.announced.value))
    && (job.publishedAt.Some? ==>
          && job.announced.Some?
          && job.publishedAt.value < |log|
          && log[job.publishedAt.value] == Publish(OutcomeEvent(j, job.announced.value)))
    && (job.stage.Settled? <==> job.final.Some?)
    && (job.final.Some? <==> job.committedAt.Some?)
    && (job.final.Some? ==> job.final == job.announced)
    && (job.committedAt.Some? ==>
          && job.committedAt.value < |log|
          && log[job.committedAt.value] == Commit(j, job.final.value))
    && (job.publishedAt.Some? && job.committedAt.Some? ==> job.publishedAt.value < job.committedAt.value)
  }

  ghost predicate LogInv(s: State) {
    forall i :: 0 <= i < |s.log| ==> CommandInv(s, i)
  }

  ghost predicate CommandInv(s: State, i: nat)
    requires i < |s.log|
  {
    match s.log[i]
    case Publish(e) =>
      e.jobId in s.jobs && (Terminal(e) ==> s.jobs[e.jobId].publishedAt == Some(i))
    case Commit(j, p) =>
      j in s.jobs && s.jobs[j].committedAt == Some(i) && s.jobs[j].final == Some(p)
    case Subscribe(w, j) =>
      w in s.conns && s.conns[w].subscribedAt == Some(i) && s.conns[w].stream.jobId == j
    case Unsubscribe(w, j) =>
      w in s.conns && s.conns[w].unsubscribedAt == Some(i) && s.conns[w].stream.jobId == j
    case GetState(w) =>
      w in s.conns && s.conns[w].readAt == Some(i)
  }

  /** The messages a listener of the job accepts. */
  function Heard(events: seq<JobEvent>, jobId: JobId): seq<JobEvent> {
    if events == [] then []
    else
      var front := Heard(events[..|events| - 1], jobId);
      var e := events[|events| - 1];
      if e.jobId == jobId && SchemaValid(e) then front + [e] else front
  }

  function Upto(s: State, c: Conn): nat {
    if c.until.Some? then c.until.value else s.delivered
  }

  predicate SettledState(q: QueueState) {
    q.QueueCompleted? || q.QueueFailed?
  }

  /** Cleanup's bookkeeping: what each combination of flags can mean. */
  ghost predicate Lifecycle(c: Conn) {
    var x := c.stream;
    && (x.unsubscribe <==> c.stage.Reading? || c.stage.Answered? || c.stage.Finished?)
    && (x.early ==> x.Closed())
    && (!x.Closed() ==> x.attached && x.unsub.NotSent? && x.ends == 0)
    && (x.Closed() ==> (x.attached <==> x.early))
    && (x.early ==> x.unsub.NotSent? && x.ends == 1)
    && (x.Closed() && !x.early ==> (x.unsub.Sent? && x.ends == 0) || (x.unsub.Returned? && x.ends == 1))
    && (c.unsubscribedAt.Some? ==> !x.unsub.NotSent?)
  }

  ghost predicate SaysOutcome(jobs: map<JobId, Job>, jobId: JobId, e: JobEvent) {
    && jobId in jobs
    && jobs[jobId].announced.Some?
    && IsOutcome(jobs[jobId].announced.value)
    && e == OutcomeEvent(jobId, jobs[jobId].announced.value)
  }

  ghost predicate HeardOutcome(c: Conn) {
    exists i :: 0 <= i < |c.stream.got| && Terminal(c.stream.got[i])
  }

  ghost predicate ReadOutcome(c: Conn) {
    c.stage.Finished? && SettledState(c.stage.state)
  }

  ghost predicate CutShort(c: Conn) {
    c.stream.cause == Some(Hangup) || c.stream.cause == Some(TimedOut)
  }

  /** What has been written about outcomes, and what an open connection cannot have seen. */
  ghost predicate Reporting(jobs: map<JobId, Job>, c: Conn) {
    var x := c.stream;
    && (forall i :: 0 <= i < |x.got| && Terminal(x.got[i]) ==> SaysOutcome(jobs, x.jobId, x.got[i]))
    && (forall i :: 0 <= i < |x.out| && x.out[i].Data? ==> x.out[i].event.jobId == x.jobId)
    && (forall i :: 0 <= i < |x.out| && x.out[i].Data? && Terminal(x.out[i].event) ==>
          SaysOutcome(jobs, x.jobId, x.out[i].event))
    && (Informed(x) ==> HeardOutcome(c) || ReadOutcome(c))
    && (!x.Closed() ==> !HeardOutcome(c) && !ReadOutcome(c))
    && (x.Closed() && !CutShort(c) ==> Informed(x))
  }

  ghost predicate Positions(s: State, w: WatcherId, c: Conn)
    requires c.stream.jobId in s.jobs
  {
    var job := s.jobs[c.stream.jobId];
    && (c.stage.Fetched? || c.stage.Subscribing? || c.stage.SubscribeFailed? <==> c.subscribedAt.None?)
    && (c.subscribedAt.Some? ==>
          && c.subscribedAt.value < |s.log|
          && s.log[c.subscribedAt.value] == Subscribe(w, c.stream.jobId)
          && c.since <= |Wire(s.log[..c.subscribedAt.value])|)
    && (c.stage.Answered? || c.stage.Finished? <==> c.readAt.Some?)
    && (c.readAt.Some? ==>
          && c.subscribedAt.Some?
          && c.subscribedAt.value < c.readAt.value < |s.log|
          && s.log[c.readAt.value] == GetState(w)
          && c.stage.state == StateAt(job, c.readAt.value, c.stage.state))
    && (c.unsubscribedAt.Some? ==>
          c.unsubscribedAt.value < |s.log| && s.log[c.unsubscribedAt.value] == Unsubscribe(w, c.stream.jobId))
  }

  /** The settled state if the commit came before position `at`, else whatever unsettled state was seen. */
  function StateAt(job: Job, at: nat, seen: QueueState): QueueState {
    if job.final.Some? && job.committedAt.Some? && job.committedAt.value < at
    then (if job.final.value.Completed? then QueueCompleted else QueueFailed)
    else if SettledState(seen) then QueueActive else seen
  }

  ghost predicate Listening(s: State, c: Conn) {
    && c.since <= Upto(s, c) <= s.delivered <= |Wire(s.log)|
    && (c.stream.attached <==> c.until.None?)
    && c.stream.got == Heard(Wire(s.log)[c.since..Upto(s, c)], c.stream.jobId)
  }

  ghost predicate ConnInv(s: State, w: WatcherId, c: Conn) {
    && c.stream.jobId in s.jobs
    && Positions(s, w, c)
    && (c.stage.Fetched? ==>
          c == Conn(Opened(c.stream.jobId, c.stream.fetchedProgress).(attached := false), Fetched, 0, None, None, None, None))
    && (!c.stage.Fetched? ==> Listening(s, c) && Lifecycle(c) && Reporting(s.jobs, c))
  }

  /** The counters count exactly the jobs whose increment Redis accepted, each once and on its own side. */
  ghost predicate TallyInv(s: State) {
    && s.completedTotal == |s.completedTally|
    && s.failedTotal == |s.failedTally|
    && (forall j :: j in s.completedTally ==> j in s.jobs && Counted(s.jobs[j], Completed))
    && (forall j :: j in s.failedTally ==> j in s.jobs && Counted(s.jobs[j], Failed))
  }

  predicate Counted(job: Job, p: Phase) {
    job.announced == Some(p) && (job.stage.Leaving? || job.stage.Settled?)
  }

  ghost predicate JobsInv(s: State) {
    forall j :: j in s.jobs ==> JobInv(s.log, j, s.jobs[j])
  }

  ghost predicate ConnsInv(s: State) {
    forall w :: w in s.conns ==> ConnInv(s, w, s.conns[w])
  }

  ghost predicate Inv(s: State) {
    s.delivered <= |Wire(s.log)| && JobsInv(s) && LogInv(s) && ConnsInv(s) && TallyInv(s)
  }

  lemma {:induction false} WireExtends(log: seq<Command>, more: seq<Command>)
    ensures Wire(log) <= Wire(log + more)
  {
    if more == [] {
      assert log + more == log;
    } else {
      var last := |more| - 1;
      WireExtends(log, more[..last]);
      assert (log + more)[..|log + more| - 1] == log + more[..last];
    }
  }

  /** Every message on the connection was published while its channel was routed there, at its own position. */
  lemma {:induction false} WireOrigin(log: seq<Command>, k: nat) returns (p: nat)
    requires k < |Wire(log)|
    ensures p < |log| && log[p] == Publish(Wire(log)[k])
    ensures Live(log[..p], Wire(log)[k].jobId) && |Wire(log[..p])| == k
  {
    var front := log[..|log| - 1];
    if k < |Wire(front)| {
      p := WireOrigin(front, k);
      assert front[..p] == log[..p];
    } else {
      p := |log| - 1;
    }
  }

  /** A publish made while the channel is routed to the connection is on it, after everything earlier. */
  lemma {:induction false} WirePosition(log: seq<Command>, p: nat)
    requires p < |log| && log[p].Publish? && Live(log[..p], log[p].event.jobId)
    ensures |Wire(log[..p])| < |Wire(log)| && Wire(log)[|Wire(log[..p])|] == log[p].event
  {
    assert log[..p + 1][..p] == log[..p];
    WireExtends(log[..p + 1], log[p + 1..]);
    assert log[..p + 1] + log[p + 1..] == log;
  }

  lemma WireMonotone(log: seq<Command>, p: nat, q: nat)
    requires p <= q <= |log|
    ensures Wire(log[..p]) <= Wire(log[..q])
  {
    WireExtends(log[..p], log[p..q]);
    assert log[..p] + log[p..q] == log[..q];
  }

  /** How a step that delivers nothing may change what a connection's invariant looks at. */
  ghost predicate Grows(s: State, t: State) {
    && s.log <= t.log
    && s.delivered == t.delivered
    && s.jobs.Keys <= t.jobs.Keys
    && forall j :: j in s.jobs ==> JobGrows(s.jobs[j], t.jobs[j], |s.log|)
  }

  ghost predicate JobGrows(a: Job, b: Job, at: nat) {
    && (a.announced.Some? ==> b.announced == a.announced)
    && (a.committedAt.Some? ==> b.committedAt == a.committedAt && b.final == a.final)
    && (a.committedAt.None? && b.committedAt.Some? ==> b.committedAt.value >= at)
  }

  lemma PositionsFrame(s: State, t: State, w: WatcherId, c: Conn)
    requires Grows(s, t) && c.stream.jobId in s.jobs && Positions(s, w, c)
    ensures Positions(t, w, c)
  {
    assert JobGrows(s.jobs[c.stream.jobId], t.jobs[c.stream.jobId], |s.log|);
    if c.subscribedAt.Some? {
      assert s.log[..c.subscribedAt.value] == t.log[..c.subscribedAt.value];
    }
  }

  lemma ListeningFrame(s: State, t: State, c: Conn)
    requires Grows(s, t) && Listening(s, c)
    ensures Listening(t, c)
  {
    WireExtends(s.log, t.log[|s.log|..]);
    assert s.log + t.log[|s.log|..] == t.log;
    assert Wire(s.log)[c.since..Upto(s, c)] == Wire(t.log)[c.since..Upto(t, c)];
  }

  lemma ConnFrame(s: State, t: State, w: WatcherId, c: Conn)
    requires Grows(s, t) && ConnInv(s, w, c)
    ensures ConnInv(t, w, c)
  {
    PositionsFrame(s, t, w, c);
    if !c.stage.Fetched? {
      ListeningFrame(s, t, c);
    }
  }
}
