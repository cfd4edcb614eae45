/** What holds of every schedule: agreement, which interleavings lose an outcome, delivery and cleanup. */
module ProtocolTheorems {
  import opened Wrappers
  import opened JobEvents
  import opened EventStream
  import opened Worker
  import opened Protocol
  import opened ProtocolInvariant
  import opened ProtocolSteps

  ghost predicate OutcomePublish(s: State, i: nat, j: JobId) {
    i < |s.log| && s.log[i].Publish? && Terminal(s.log[i].event) && s.log[i].event.jobId == j
  }

  /** A job's outcome is published at most once, before the queue commits, and names the committed state. */
  lemma OneAnnouncement(s: State, i: nat, j: JobId)
    requires Reachable(s) && OutcomePublish(s, i, j)
    ensures j in s.jobs && s.jobs[j].announced == Some(s.log[i].event.state)
    ensures forall k :: OutcomePublish(s, k, j) ==> k == i
    ensures forall k, p :: 0 <= k < |s.log| && s.log[k] == Commit(j, p) ==> i < k && p == s.log[i].event.state
    ensures s.jobs[j].final.Some? ==> s.jobs[j].final == s.jobs[j].announced
  {
    ReachableInv(s);
    assert CommandInv(s, i);
    assert JobInv(s.log, j, s.jobs[j]);
    forall k | OutcomePublish(s, k, j)
      ensures k == i
    {
      assert CommandInv(s, k);
    }
    forall k: nat, p | k < |s.log| && s.log[k] == Commit(j, p)
      ensures i < k && p == s.log[i].event.state
    {
      assert CommandInv(s, k);
    }
  }

  /** A settled job was announced as what the queue settled on, within its allowance of attempts. */
  lemma SettledWasAnnounced(s: State, j: JobId)
    requires Reachable(s) && j in s.jobs && s.jobs[j].final.Some?
    ensures var job := s.jobs[j];
            && IsOutcome(job.final.value) && job.announced == job.final && job.stage.Settled?
            && job.made + 1 <= if job.attempts == 0 then 1 else job.attempts
  {
    ReachableInv(s);
    assert JobInv(s.log, j, s.jobs[j]);
  }

  function Publishes(events: seq<JobEvent>): seq<Command> {
    seq(|events|, i requires 0 <= i < |events| => Publish(events[i]))
  }

  /** What a job becomes, and what reaches Redis, over some steps with nothing in between. */
  function JobRun(job: Job, j: JobId, steps: seq<Step>, at: nat): (Job, seq<Command>)
    decreases |steps|
  {
    if steps == [] then (job, [])
    else
      var (after, sent) := JobStep(job, j, steps[0], at);
      var (last, more) := JobRun(after, j, steps[1..], at + |sent|);
      (last, sent + more)
  }

  lemma JobRunStep(job: Job, j: JobId, a: Step, rest: seq<Step>, at: nat)
    ensures var (after, sent) := JobStep(job, j, a, at);
            var (last, more) := JobRun(after, j, rest, at + |sent|);
            JobRun(job, j, [a] + rest, at) == (last, sent + more)
  {
    assert ([a] + rest)[1..] == rest;
  }

  /** From the processor's run to the queue's decision. */
  function LeavingSteps(j: JobId, attempt: Attempt, redis: Acceptance): seq<Step> {
    [RunProcessor(j, attempt)] + ([PublishOutcome(j, redis.outcome)] + ([Count(j, redis.count)] + [QueueActs(j)]))
  }

  function AttemptSteps(j: JobId, attempt: Attempt, redis: Acceptance): seq<Step> {
    [Pick(j)] + ([PublishStart(j, redis.start)] + LeavingSteps(j, attempt, redis))
  }

  ghost predicate QueueDecides(job: Job, x: Exit, after: Job) {
    if QueueRetries(x, job.attempts, job.made) then after == job.(stage := Waiting, made := job.made + 1)
    else after.stage.Settled? && after.final == Some(OutcomeOf(x)) && after.made == job.made
  }

  function Decision(j: JobId, job: Job, x: Exit): seq<Command> {
    if QueueRetries(x, job.attempts, job.made) then [] else [Commit(j, OutcomeOf(x))]
  }

  lemma DecisionRun(job: Job, j: JobId, x: Exit, counted: bool, at: nat)
    requires job.stage == Leaving(x) || (job.stage == Counting(x) && Announces(x, job.attempts, job.made))
    ensures var (after, sent) := JobRun(job, j, [Count(j, counted)] + [QueueActs(j)], at);
            QueueDecides(job, x, after) && sent == Decision(j, job, x)
  {
    JobRunStep(job, j, Count(j, counted), [QueueActs(j)], at);
    JobRunStep(job.(stage := Leaving(x)), j, QueueActs(j), [], at);
    assert [QueueActs(j)] + [] == [QueueActs(j)];
  }

  lemma LeavingRun(job: Job, j: JobId, attempt: Attempt, redis: Acceptance, at: nat)
    requires job.stage.Running?
    ensures var x := RunJobWithRetryPolicy(attempt);
            var (after, sent) := JobRun(job, j, LeavingSteps(j, attempt, redis), at);
            && QueueDecides(job, x, after)
            && sent == (if Announces(x, job.attempts, job.made) && redis.outcome then [Publish(OutcomeEvent(j, OutcomeOf(x)))] else [])
                       + Decision(j, job, x)
  {
    var x := RunJobWithRetryPolicy(attempt);
    var end := [Count(j, redis.count)] + [QueueActs(j)];
    JobRunStep(job, j, RunProcessor(j, attempt), [PublishOutcome(j, redis.outcome)] + end, at);
    var job1 := JobStep(job, j, RunProcessor(j, attempt), at).0;
    JobRunStep(job1, j, PublishOutcome(j, redis.outcome), end, at);
    var (job2, sent2) := JobStep(job1, j, PublishOutcome(j, redis.outcome), at);
    DecisionRun(job2, j, x, redis.count, at + |sent2|);
  }

  /** Run in one go, an attempt's steps send what the handler publishes, and the queue then retries or settles. */
  lemma HandlerIsJobSteps(job: Job, j: JobId, attempt: Attempt, redis: Acceptance, at: nat)
    requires job.stage.Waiting?
    ensures var x := RunJobWithRetryPolicy(attempt);
            var (after, sent) := JobRun(job, j, AttemptSteps(j, attempt, redis), at);
            && QueueDecides(job, x, after)
            && sent == Publishes(Kept(AttemptEvents(j, x, job.attempts, job.made), redis)) + Decision(j, job, x)
  {
    var rest := LeavingSteps(j, attempt, redis);
    JobRunStep(job, j, Pick(j), [PublishStart(j, redis.start)] + rest, at);
    JobRunStep(job.(stage := Starting), j, PublishStart(j, redis.start), rest, at);
    LeavingRun(job.(stage := Running), j, attempt, redis, if redis.start then at + 1 else at);
  }

  ghost predicate WroteOutcome(s: State, w: WatcherId, e: JobEvent) {
    w in s.conns && Data(e) in s.conns[w].stream.out && Terminal(e)
  }

  /** Every terminal event any connection has written names the state the queue settles the job in. */
  lemma Agreement(s: State, w: WatcherId, e: JobEvent)
    requires Reachable(s) && WroteOutcome(s, w, e)
    ensures e.jobId == s.conns[w].stream.jobId && e.jobId in s.jobs
    ensures s.jobs[e.jobId].announced == Some(e.state)
    ensures s.jobs[e.jobId].final.Some? ==> s.jobs[e.jobId].final == Some(e.state)
    ensures forall v, f :: WroteOutcome(s, v, f) && f.jobId == e.jobId ==> f == e
  {
    ReachableInv(s);
    WroteAnnounced(s, w, e);
    assert JobInv(s.log, e.jobId, s.jobs[e.jobId]);
    forall v, f | WroteOutcome(s, v, f) && f.jobId == e.jobId
      ensures f == e
    {
      WroteAnnounced(s, v, f);
    }
  }

  lemma WroteAnnounced(s: State, w: WatcherId, e: JobEvent)
    requires Inv(s) && WroteOutcome(s, w, e)
    ensures e.jobId == s.conns[w].stream.jobId && SaysOutcome(s.jobs, e.jobId, e)
  {
    assert ConnInv(s, w, s.conns[w]);
    var i :| 0 <= i < |s.conns[w].stream.out| && s.conns[w].stream.out[i] == Data(e);
  }

  /** The outcome message of a settled job was put on the connection while this listener could hear it. */
  ghost predicate OutcomeReachedListener(s: State, c: Conn)
    requires c.stream.jobId in s.jobs
  {
    var p := s.jobs[c.stream.jobId].publishedAt;
    && p.Some?
    && p.value < |s.log|
    && Live(s.log[..p.value], c.stream.jobId)
    && c.since <= |Wire(s.log[..p.value])|
  }

  lemma {:induction false} HeardFrom(events: seq<JobEvent>, jobId: JobId, k: nat) returns (i: nat)
    requires k < |Heard(events, jobId)|
    ensures i < |events| && events[i] == Heard(events, jobId)[k]
  {
    var last := |events| - 1;
    var front := Heard(events[..last], jobId);
    if k < |front| {
      i := HeardFrom(events[..last], jobId, k);
    } else {
      i := last;
    }
  }

  lemma {:induction false} HeardIfOn(events: seq<JobEvent>, jobId: JobId, i: nat) returns (k: nat)
    requires i < |events| && events[i].jobId == jobId && SchemaValid(events[i])
    ensures k < |Heard(events, jobId)| && Heard(events, jobId)[k] == events[i]
  {
    var last := |events| - 1;
    if i < last {
      k := HeardIfOn(events[..last], jobId, i);
    } else {
      k := |Heard(events, jobId)| - 1;
    }
  }

  lemma HeardOutcomeReached(s: State, w: WatcherId)
    requires Inv(s) && w in s.conns && !s.conns[w].stage.Fetched?
    requires HeardOutcome(s.conns[w])
    ensures s.conns[w].stream.jobId in s.jobs && OutcomeReachedListener(s, s.conns[w])
  {
    var c := s.conns[w];
    assert ConnInv(s, w, c);
    var k :| 0 <= k < |c.stream.got| && Terminal(c.stream.got[k]);
    assert SaysOutcome(s.jobs, c.stream.jobId, c.stream.got[k]);
    var at := GotOnWire(s, c, k);
    OutcomeOnWire(s, at);
  }

  lemma GotOnWire(s: State, c: Conn, k: nat) returns (at: nat)
    requires Listening(s, c) && k < |c.stream.got|
    ensures c.since <= at < |Wire(s.log)| && Wire(s.log)[at] == c.stream.got[k]
  {
    var heard := Wire(s.log)[c.since..Upto(s, c)];
    var i := HeardFrom(heard, c.stream.jobId, k);
    at := c.since + i;
    assert heard[i] == Wire(s.log)[at];
  }

  /** An outcome on the connection is its job's one publish, made while the channel was routed there. */
  lemma OutcomeOnWire(s: State, at: nat)
    requires LogInv(s) && at < |Wire(s.log)| && Terminal(Wire(s.log)[at])
    ensures var j := Wire(s.log)[at].jobId;
            && j in s.jobs && s.jobs[j].publishedAt.Some? && s.jobs[j].publishedAt.value < |s.log|
            && Live(s.log[..s.jobs[j].publishedAt.value], j) && |Wire(s.log[..s.jobs[j].publishedAt.value])| == at
  {
    var p := WireOrigin(s.log, at);
    assert CommandInv(s, p);
  }

  lemma ReachedIsHeard(s: State, w: WatcherId)
    requires Inv(s) && w in s.conns && !s.conns[w].stage.Fetched? && s.conns[w].stream.jobId in s.jobs
    requires OutcomeReachedListener(s, s.conns[w])
    requires s.delivered == |Wire(s.log)| && s.conns[w].until.None?
    ensures HeardOutcome(s.conns[w])
  {
    var c := s.conns[w];
    var job := s.jobs[c.stream.jobId];
    assert ConnInv(s, w, c) && JobInv(s.log, c.stream.jobId, job);
    var p := job.publishedAt.value;
    WirePosition(s.log, p);
    var k := HeardBetween(Wire(s.log), c.stream.jobId, c.since, |Wire(s.log[..p])|, Upto(s, c));
  }

  lemma HeardBetween(wire: seq<JobEvent>, jobId: JobId, from: nat, at: nat, to: nat) returns (k: nat)
    requires from <= at < to <= |wire| && wire[at].jobId == jobId && SchemaValid(wire[at])
    ensures k < |Heard(wire[from..to], jobId)| && Heard(wire[from..to], jobId)[k] == wire[at]
  {
    assert wire[from..to][at - from] == wire[at];
    k := HeardIfOn(wire[from..to], jobId, at - from);
  }

  /** A connection that is through its snapshot, was not cut short, and whose job settled and went quiet. */
  ghost predicate Quiet(s: State, w: WatcherId) {
    && w in s.conns
    && s.conns[w].stage.Finished?
    && !CutShort(s.conns[w])
    && s.conns[w].stream.jobId in s.jobs
    && s.jobs[s.conns[w].stream.jobId].final.Some?
    && s.delivered == |Wire(s.log)|
  }

  /**
   * Exactly which interleavings inform a watcher: its state read came after the queue's commit, or the one
   * outcome message was routed to the connection at a time this listener was attached to hear it.
   */
  lemma InformedExactly(s: State, w: WatcherId)
    requires Reachable(s) && Quiet(s, w)
    ensures var c := s.conns[w];
            var job := s.jobs[c.stream.jobId];
            && c.readAt.Some? && job.committedAt.Some?
            && (Informed(c.stream) <==> job.committedAt.value < c.readAt.value || OutcomeReachedListener(s, c))
            && (Informed(c.stream) <==> c.stream.Closed())
  {
    ReachableInv(s);
    var c := s.conns[w];
    assert ConnInv(s, w, c);
    assert JobInv(s.log, c.stream.jobId, s.jobs[c.stream.jobId]);
    if HeardOutcome(c) {
      HeardOutcomeReached(s, w);
    } else if OutcomeReachedListener(s, c) && !c.stream.Closed() {
      ReachedIsHeard(s, w);
    }
  }

  ghost predicate UnsubscribedBetween(log: seq<Command>, jobId: JobId, from: nat, to: nat) {
    exists i :: from <= i < to && i < |log| && log[i].Unsubscribe? && log[i].jobId == jobId
  }

  lemma {:induction false} LiveSince(log: seq<Command>, jobId: JobId, at: nat)
    requires at < |log| && log[at].Subscribe? && log[at].jobId == jobId
    requires !UnsubscribedBetween(log, jobId, at, |log|)
    ensures Live(log, jobId)
  {
    var last := |log| - 1;
    if at < last {
      assert log[last].Unsubscribe? ==> log[last].jobId != jobId;
      assert forall i :: 0 <= i < last ==> log[..last][i] == log[i];
      LiveSince(log[..last], jobId, at);
    }
  }

  /** The four commands of a lost outcome, in the order Redis ran them. */
  ghost predicate LostBy(s: State, w: WatcherId, publish: nat, subscribe: nat, read: nat, commit: nat)
    requires w in s.conns
  {
    var j := s.conns[w].stream.jobId;
    && publish < subscribe < read < commit < |s.log|
    && s.log[commit].Commit? && s.log[commit].job == j && IsOutcome(s.log[commit].final)
    && s.log[publish] == Publish(OutcomeEvent(j, s.log[commit].final))
    && s.log[subscribe] == Subscribe(w, j)
    && s.log[read] == GetState(w)
  }

  /**
   * Lost outcomes: when the publish was accepted and nobody unsubscribed the channel, a connection left open
   * and silent means the publish preceded its subscribe and its state read preceded the commit.
   */
  lemma LostOutcome(s: State, w: WatcherId)
    requires Reachable(s) && Quiet(s, w) && !s.conns[w].stream.Closed()
    requires s.jobs[s.conns[w].stream.jobId].publishedAt.Some?
    requires !UnsubscribedBetween(s.log, s.conns[w].stream.jobId, 0, |s.log|)
    ensures exists p, a, r, k :: LostBy(s, w, p, a, r, k)
  {
    InformedExactly(s, w);
    ReachableInv(s);
    var c := s.conns[w];
    assert ConnInv(s, w, c);
    assert JobInv(s.log, c.stream.jobId, s.jobs[c.stream.jobId]);
    LostOrder(s, w, c, s.jobs[c.stream.jobId]);
  }

  lemma LostOrder(s: State, w: WatcherId, c: Conn, job: Job)
    requires w in s.conns && c == s.conns[w] && c.stage.Finished?
    requires c.stream.jobId in s.jobs && job == s.jobs[c.stream.jobId]
    requires Positions(s, w, c) && JobInv(s.log, c.stream.jobId, job)
    requires job.publishedAt.Some? && job.committedAt.Some? && job.committedAt.value >= c.readAt.value
    requires !OutcomeReachedListener(s, c) && !UnsubscribedBetween(s.log, c.stream.jobId, 0, |s.log|)
    ensures exists p, a, r, k :: LostBy(s, w, p, a, r, k)
  {
    var at, p, r, k := c.subscribedAt.value, job.publishedAt.value, c.readAt.value, job.committedAt.value;
    if at < p {
      SubscribedFirstReaches(s, w, c);
    }
    assert s.log[at] != s.log[p] && s.log[r] != s.log[k];
    assert LostBy(s, w, p, at, r, k);
  }

  lemma SubscribedFirstReaches(s: State, w: WatcherId, c: Conn)
    requires c.stream.jobId in s.jobs && Positions(s, w, c) && c.subscribedAt.Some?
    requires s.jobs[c.stream.jobId].publishedAt.Some?
    requires c.subscribedAt.value < s.jobs[c.stream.jobId].publishedAt.value < |s.log|
    requires !UnsubscribedBetween(s.log, c.stream.jobId, 0, |s.log|)
    ensures OutcomeReachedListener(s, c)
  {
    var at, p := c.subscribedAt.value, s.jobs[c.stream.jobId].publishedAt.value;
    assert forall i :: 0 <= i < p ==> s.log[..p][i] == s.log[i];
    LiveSince(s.log[..p], c.stream.jobId, at);
    WireMonotone(s.log, at, p);
  }

  /** A watcher whose state read follows the commit is told, so reconnecting repairs a lost outcome. */
  lemma ReconnectRepairs(s: State, w: WatcherId, commit: nat, read: nat)
    requires Reachable(s) && w in s.conns && s.conns[w].stage.Finished? && !CutShort(s.conns[w])
    requires commit < read < |s.log|
    requires s.log[commit].Commit? && s.log[commit].job == s.conns[w].stream.jobId && s.log[read] == GetState(w)
    ensures Informed(s.conns[w].stream) && s.conns[w].stream.Closed()
  {
    ReachableInv(s);
    assert CommandInv(s, commit) && CommandInv(s, read);
    assert ConnInv(s, w, s.conns[w]);
    assert JobInv(s.log, s.conns[w].stream.jobId, s.jobs[s.conns[w].stream.jobId]);
  }

  /**
   * The valid publishes of a job's channel, in order, that were made while any subscription routed the channel
   * to the connection and were, on it, the messages from number `since` to before number `until`.
   */
  function Routed(log: seq<Command>, jobId: JobId, since: nat, until: nat): seq<JobEvent> {
    if log == [] then []
    else
      var before := log[..|log| - 1];
      var front := Routed(before, jobId, since, until);
      match log[|log| - 1]
      case Publish(e) =>
        if e.jobId == jobId && 0 <= e.progress <= 100 && Live(before, jobId) && since <= |Wire(before)| < until
        then front + [e] else front
      case _ => front
  }

  lemma {:induction false} RoutedNothing(log: seq<Command>, jobId: JobId, since: nat, until: nat)
    requires until <= since || |Wire(log)| <= since
    ensures Routed(log, jobId, since, until) == []
  {
    if log != [] {
      RoutedNothing(log[..|log| - 1], jobId, since, until);
    }
  }

  /** What a listener accepts of the connection's messages is what the log routed to it. */
  lemma {:induction false} HeardIsRouted(log: seq<Command>, jobId: JobId, since: nat, until: nat)
    requires since <= until <= |Wire(log)|
    ensures Heard(Wire(log)[since..until], jobId) == Routed(log, jobId, since, until)
  {
    if log != [] {
      var before := log[..|log| - 1];
      if until <= |Wire(before)| {
        HeardIsRouted(before, jobId, since, until);
        assert Wire(before)[since..until] == Wire(log)[since..until];
      } else if since == until {
        RoutedNothing(log, jobId, since, until);
      } else {
        HeardIsRouted(before, jobId, since, |Wire(before)|);
        LastIsRouted(log, jobId, since, until);
      }
    }
  }

  /** The last message of the connection, being its log's last publish. */
  lemma LastIsRouted(log: seq<Command>, jobId: JobId, since: nat, until: nat)
    requires log != [] && since < until == |Wire(log)|
    requires var before := log[..|log| - 1];
             && since <= |Wire(before)| < until
             && Heard(Wire(before)[since..|Wire(before)|], jobId) == Routed(before, jobId, since, |Wire(before)|)
    ensures Heard(Wire(log)[since..until], jobId) == Routed(log, jobId, since, until)
  {
    var before, e := log[..|log| - 1], log[|log| - 1].event;
    RoutedUpToEnd(before, jobId, since, |Wire(before)|, until);
    HeardOneMore(Wire(before), e, jobId, since);
  }

  lemma HeardOneMore(wire: seq<JobEvent>, e: JobEvent, jobId: JobId, since: nat)
    requires since <= |wire|
    ensures Heard((wire + [e])[since..|wire| + 1], jobId)
         == Heard(wire[since..|wire|], jobId) + if e.jobId == jobId && SchemaValid(e) then [e] else []
  {
    var all := (wire + [e])[since..|wire| + 1];
    assert all[..|all| - 1] == wire[since..|wire|] && all[|all| - 1] == e;
  }

  lemma {:induction false} RoutedUpToEnd(log: seq<Command>, jobId: JobId, since: nat, a: nat, b: nat)
    requires |Wire(log)| <= a && |Wire(log)| <= b
    ensures Routed(log, jobId, since, a) == Routed(log, jobId, since, b)
  {
    if log != [] {
      RoutedUpToEnd(log[..|log| - 1], jobId, since, a, b);
    }
  }

  /** What a watcher's callback received: its own channel's valid messages while its listener was attached. */
  lemma SharedDelivery(s: State, w: WatcherId)
    requires Reachable(s) && w in s.conns && !s.conns[w].stage.Fetched?
    ensures var c := s.conns[w];
            && c.since <= Upto(s, c) <= |Wire(s.log)|
            && c.stream.got == Heard(Wire(s.log)[c.since..Upto(s, c)], c.stream.jobId)
            && c.stream.got == Routed(s.log, c.stream.jobId, c.since, Upto(s, c))
            && (c.stream.attached ==> Upto(s, c) == s.delivered)
  {
    ReachableInv(s);
    var c := s.conns[w];
    assert ConnInv(s, w, c);
    HeardIsRouted(s.log, c.stream.jobId, c.since, Upto(s, c));
  }

  /** A channel is routed to the connection exactly when its last command, by any watcher, was a subscribe. */
  lemma {:induction false} LiveIsLastCommand(log: seq<Command>, jobId: JobId)
    ensures Live(log, jobId) <==>
      exists i :: 0 <= i < |log| && log[i].Subscribe? && log[i].jobId == jobId
                  && !UnsubscribedBetween(log, jobId, i, |log|)
  {
    if log != [] {
      var last := |log| - 1;
      var front := log[..last];
      LiveIsLastCommand(front, jobId);
      if Live(log, jobId) && !(log[last].Subscribe? && log[last].jobId == jobId) {
        assert Live(front, jobId);
        var i :| 0 <= i < |front| && front[i].Subscribe? && front[i].jobId == jobId
                 && !UnsubscribedBetween(front, jobId, i, |front|);
        assert log[i] == front[i];
        forall k | i <= k < |log| && log[k].Unsubscribe?
          ensures log[k].jobId != jobId
        {
          if k < last {
            assert front[k] == log[k];
          }
        }
      } else if Live(log, jobId) {
        assert !UnsubscribedBetween(log, jobId, last, |log|);
      }
      if i :| 0 <= i < |log| && log[i].Subscribe? && log[i].jobId == jobId && !UnsubscribedBetween(log, jobId, i, |log|) {
        LiveSince(log, jobId, i);
      }
    }
  }

  /** `res.end` runs at most once, and at once unless the unsubscribe is still awaited. */
  lemma EndsAtMostOnce(s: State, w: WatcherId)
    requires Reachable(s) && w in s.conns
    ensures var x := s.conns[w].stream;
            && x.ends <= 1
            && (x.ends == 1 ==> x.Closed())
            && (x.Closed() && x.ends == 0 ==> x.unsub.Sent?)
  {
    ReachableInv(s);
    assert ConnInv(s, w, s.conns[w]);
  }

  /** How a closed connection may still change: at most its one pending snapshot is written. */
  ghost predicate AfterClose(c: Conn, d: Conn) {
    var x, y := c.stream, d.stream;
    && !d.stage.Fetched?
    && y.jobId == x.jobId && y.fetchedProgress == x.fetchedProgress
    && y.cause == x.cause && y.early == x.early && y.attached == x.attached
    && (c.stage.Finished? ==> d.stage == c.stage)
    && (c.stage.Finished? || !d.stage.Finished? ==> y.out == x.out)
    && (!c.stage.Finished? && d.stage.Finished? ==>
          y.out == x.out || y.out == x.out + [Data(SnapshotEvent(x, d.stage.state))])
  }

  lemma ClosedConnStep(s: State, w: WatcherId, c: Conn, a: Step)
    requires c.stream.jobId in s.jobs && c.stream.Closed() && !c.stage.Fetched? && Lifecycle(c)
    ensures AfterClose(c, ConnStep(s, w, c, a).0)
  {
  }

  /** Messages that arrive after the first cleanup write nothing. */
  lemma ClosedReceive(c: Conn, e: JobEvent, at: nat)
    requires c.stream.Closed() && !c.stage.Fetched?
    ensures AfterClose(c, Receive(c, e, at)) && Receive(c, e, at).stream.out == c.stream.out
  {
  }

  lemma ClosedStep(s: State, w: WatcherId, a: Step)
    requires ConnsInv(s) && w in s.conns && s.conns[w].stream.Closed() && !s.conns[w].stage.Fetched?
    ensures w in Apply(s, a).conns && AfterClose(s.conns[w], Apply(s, a).conns[w])
  {
    assert ConnInv(s, w, s.conns[w]);
    ConnAfter(s, w, a);
    if IsConnStep(a) && a.w == w {
      ClosedConnStep(s, w, s.conns[w], a);
    } else if a.Deliver? && s.delivered < |Wire(s.log)| {
      ClosedReceive(s.conns[w], Wire(s.log)[s.delivered], s.delivered + 1);
    }
  }

  /** The steps that can change a connection: its own, and a delivery. */
  lemma ConnAfter(s: State, w: WatcherId, a: Step)
    requires w in s.conns && s.conns[w].stream.jobId in s.jobs
    ensures w in Apply(s, a).conns
    ensures Apply(s, a).conns[w] ==
            if IsConnStep(a) && a.w == w then ConnStep(s, w, s.conns[w], a).0
            else if a.Deliver? && s.delivered < |Wire(s.log)|
            then Receive(s.conns[w], Wire(s.log)[s.delivered], s.delivered + 1)
            else s.conns[w]
  {
  }

  lemma AfterCloseTransitive(c: Conn, d: Conn, e: Conn)
    requires AfterClose(c, d) && AfterClose(d, e)
    ensures AfterClose(c, e)
  {
  }

  /**
   * After the first cleanup no second one takes effect, the callback writes nothing, and at most the one
   * pending snapshot is still written; the listener stays attached exactly if cleanup found no unsubscribe
   * function, and then the channel is never unsubscribed by this connection.
   */
  lemma {:induction false} AfterCleanup(s: State, w: WatcherId, more: seq<Step>)
    requires Reachable(s) && w in s.conns && s.conns[w].stream.Closed()
    ensures var t := ExecFrom(s, more);
            && w in t.conns
            && AfterClose(s.conns[w], t.conns[w])
            && (t.conns[w].stream.attached <==> s.conns[w].stream.early)
            && (s.conns[w].stream.early ==>
                  forall i :: 0 <= i < |t.log| ==> t.log[i] != Unsubscribe(w, s.conns[w].stream.jobId))
  {
    ReachableInv(s);
    assert ConnInv(s, w, s.conns[w]);
    StaysAfterClose(s, w, more);
    var t := ExecFrom(s, more);
    ExecKeeps(s, more);
    ClosedConn(t, w, s.conns[w].stream.jobId);
  }

  lemma ClosedConn(t: State, w: WatcherId, jobId: JobId)
    requires Inv(t) && w in t.conns && t.conns[w].stream.Closed() && !t.conns[w].stage.Fetched?
    ensures t.conns[w].stream.attached <==> t.conns[w].stream.early
    ensures t.conns[w].stream.early ==> forall i :: 0 <= i < |t.log| ==> t.log[i] != Unsubscribe(w, jobId)
  {
    assert ConnInv(t, w, t.conns[w]);
    forall i: nat | i < |t.log| && t.log[i] == Unsubscribe(w, jobId)
      ensures t.conns[w].unsubscribedAt == Some(i)
    {
      assert CommandInv(t, i);
    }
  }

  lemma {:induction false} StaysAfterClose(s: State, w: WatcherId, more: seq<Step>)
    requires Inv(s) && w in s.conns && s.conns[w].stream.Closed() && !s.conns[w].stage.Fetched?
    ensures w in ExecFrom(s, more).conns && AfterClose(s.conns[w], ExecFrom(s, more).conns[w])
  {
    if more != [] {
      var last := |more| - 1;
      StaysAfterClose(s, w, more[..last]);
      ExecKeeps(s, more[..last]);
      var mid := ExecFrom(s, more[..last]);
      ClosedStep(mid, w, more[last]);
      AfterCloseTransitive(s.conns[w], mid.conns[w], ExecFrom(s, more).conns[w]);
    }
  }

  /** Cleanup leaves the subscription behind exactly when it takes effect before `unsubscribe` is assigned. */
  lemma LeakExactly(s: State, w: WatcherId, a: Step, more: seq<Step>)
    requires Reachable(s) && w in s.conns && !s.conns[w].stream.Closed()
    requires w in Apply(s, a).conns && Apply(s, a).conns[w].stream.Closed()
    ensures var t := ExecFrom(Apply(s, a), more);
            && w in t.conns
            && (t.conns[w].stream.attached <==> !s.conns[w].stream.unsubscribe)
  {
    ReachableStep(s, a);
    ClosingStep(s, w, a);
    AfterCleanup(Apply(s, a), w, more);
  }

  lemma ClosingStep(s: State, w: WatcherId, a: Step)
    requires Reachable(s) && w in s.conns && !s.conns[w].stream.Closed()
    requires w in Apply(s, a).conns && Apply(s, a).conns[w].stream.Closed()
    ensures Apply(s, a).conns[w].stream.early <==> !s.conns[w].stream.unsubscribe
  {
    ReachableInv(s);
    var c := s.conns[w];
    assert ConnInv(s, w, c);
    assert !c.stream.early;
    ConnAfter(s, w, a);
    if IsConnStep(a) && a.w == w {
      ClosingConnStep(s, w, c, a);
    } else if a.Deliver? && s.delivered < |Wire(s.log)| {
      ClosingReceive(c, Wire(s.log)[s.delivered], s.delivered + 1);
    }
  }

  lemma ClosingConnStep(s: State, w: WatcherId, c: Conn, a: Step)
    requires c.stream.jobId in s.jobs && !c.stream.Closed() && !c.stream.early
    requires ConnStep(s, w, c, a).0.stream.Closed()
    ensures ConnStep(s, w, c, a).0.stream.early <==> !c.stream.unsubscribe
  {
  }

  lemma ClosingReceive(c: Conn, e: JobEvent, at: nat)
    requires !c.stream.Closed() && !c.stream.early && Receive(c, e, at).stream.Closed()
    ensures Receive(c, e, at).stream.early <==> !c.stream.unsubscribe
  {
  }

  ghost predicate AllIncrementsAccepted(steps: seq<Step>) {
    forall i :: 0 <= i < |steps| && steps[i].Count? ==> steps[i].accepted
  }

  /** While Redis accepts every increment, a job past its increment is in the tally of its outcome. */
  ghost predicate TalliesComplete(s: State) {
    forall j :: j in s.jobs && PastCount(s.jobs[j]) ==>
      j in if s.jobs[j].announced.value.Completed? then s.completedTally else s.failedTally
  }

  /** Past its increment, if it needed one. */
  predicate PastCount(job: Job) {
    job.announced.Some? && (job.stage.Leaving? || job.stage.Settled?)
  }

  lemma PastCountStep(log: seq<Command>, j: JobId, job: Job, a: Step)
    requires IsJobStep(a) && JobInv(log, j, job)
    ensures var after := JobStep(job, j, a, |log|).0;
            PastCount(after) ==>
              if PastCount(job) then after.announced == job.announced
              else a.Count? && job.stage.Counting? && after.announced == Some(OutcomeOf(job.stage.exit))
  {
  }

  lemma TalliesStep(s: State, a: Step)
    requires JobsInv(s) && TalliesComplete(s) && (a.Count? ==> a.accepted)
    ensures TalliesComplete(Apply(s, a))
  {
    if IsJobStep(a) && a.j in s.jobs {
      var t := ApplyToJob(s, a.j, a);
      assert t.completedTally >= s.completedTally && t.failedTally >= s.failedTally;
      PastCountStep(s.log, a.j, s.jobs[a.j], a);
      forall k | k in t.jobs && PastCount(t.jobs[k])
        ensures k in if t.jobs[k].announced.value.Completed? then t.completedTally else t.failedTally
      {
        assert k != a.j ==> t.jobs[k] == s.jobs[k];
      }
    }
  }

  lemma {:induction false} TalliesExec(steps: seq<Step>)
    requires AllIncrementsAccepted(steps)
    ensures TalliesComplete(ExecFrom(INIT, steps))
  {
    if steps != [] {
      var front := steps[..|steps| - 1];
      assert forall i :: 0 <= i < |front| ==> front[i] == steps[i];
      TalliesExec(front);
      ExecKeeps(INIT, front);
      TalliesStep(ExecFrom(INIT, front), steps[|steps| - 1]);
    }
  }

  function SettledIn(s: State, p: Phase): set<JobId> {
    set j | j in s.jobs && s.jobs[j].final == Some(p)
  }

  lemma TallyIsSettled(s: State, j: JobId)
    requires Inv(s) && TalliesComplete(s)
    requires forall k :: k in s.jobs ==> !s.jobs[k].stage.Leaving?
    ensures j in SettledIn(s, Completed) <==> j in s.completedTally
    ensures j in SettledIn(s, Failed) <==> j in s.failedTally
    ensures j in s.jobs && s.jobs[j].stage.Settled? <==> j in SettledIn(s, Completed) + SettledIn(s, Failed)
  {
    if j in s.jobs {
      assert JobInv(s.log, j, s.jobs[j]);
    }
  }

  lemma TalliesAreSettled(s: State)
    requires Inv(s) && TalliesComplete(s)
    requires forall k :: k in s.jobs ==> !s.jobs[k].stage.Leaving?
    ensures SettledIn(s, Completed) == s.completedTally && SettledIn(s, Failed) == s.failedTally
    ensures (set j | j in s.jobs && s.jobs[j].stage.Settled?) == SettledIn(s, Completed) + SettledIn(s, Failed)
  {
    forall j
      ensures j in SettledIn(s, Completed) <==> j in s.completedTally
      ensures j in SettledIn(s, Failed) <==> j in s.failedTally
      ensures j in s.jobs && s.jobs[j].stage.Settled? <==> j in SettledIn(s, Completed) + SettledIn(s, Failed)
    {
      TallyIsSettled(s, j);
    }
  }

  /** Settled jobs are exactly the completed plus the failed increments, once every handler has left. */
  lemma CountersMatch(s: State, steps: seq<Step>)
    requires AllIncrementsAccepted(steps) && s == ExecFrom(INIT, steps)
    requires forall j :: j in s.jobs ==> !s.jobs[j].stage.Leaving?
    ensures s.completedTotal == |SettledIn(s, Completed)| && s.failedTotal == |SettledIn(s, Failed)|
    ensures s.completedTotal + s.failedTotal == |set j | j in s.jobs && s.jobs[j].stage.Settled?|
  {
    ExecKeeps(INIT, steps);
    TalliesExec(steps);
    TalliesAreSettled(s);
    assert SettledIn(s, Completed) !! SettledIn(s, Failed);
  }
}
