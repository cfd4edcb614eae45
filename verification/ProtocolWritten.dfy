/** What every connection has written: the live events it heard, in order, with its snapshot among them. */
module ProtocolWritten {
  import opened Wrappers
  import opened JobEvents
  import opened EventStream
  import opened Protocol
  import opened ProtocolInvariant
  import opened ProtocolSteps
  import opened ProtocolTheorems

  /** A valid message of the job's own channel is written as one event, outcome or not. */
  lemma LiveEventIsWritten(c: Stream, e: JobEvent)
    requires c.attached && !c.Closed() && c.ends == 0 && e.jobId == c.jobId && 0 <= e.progress <= 100
    ensures OnMessage(c, ChannelFor(c.jobId), Parsed(e)).out == c.out + [Data(e)]
  {
  }

  /** Anything else leaves the output alone: malformed text, values out of range, other channels, and whatever comes after cleanup. */
  lemma NothingElseIsWritten(c: Stream, channel: string, payload: Payload)
    requires c.Closed() || !c.attached || channel != "job-events:" + c.jobId || payload.Malformed?
             || payload.event.progress < 0 || payload.event.progress > 100
    ensures OnMessage(c, channel, payload).out == c.out
  {
  }

  /** Until the response has ended the snapshot is written, naming the state read and the progress fetched. */
  lemma SnapshotIsWritten(c: Stream, state: QueueState)
    requires c.ends == 0
    ensures var e := if state.QueueCompleted? then JobEvent(c.jobId, Completed, 100)
                     else if state.QueueFailed? then JobEvent(c.jobId, Failed, 0)
                     else if state.QueueActive? then JobEvent(c.jobId, Processing, c.fetchedProgress)
                     else JobEvent(c.jobId, Queued, c.fetchedProgress);
            Snapshot(c, state).out == c.out + [Data(e)] && SnapshotEvent(c, state) == e
  {
  }

  /** A keep-alive is written exactly while the connection is open. */
  lemma KeepAliveWhileOpen(c: Stream)
    requires c.Closed() || c.ends == 0
    ensures KeepAliveTick(c).out == if c.Closed() then c.out else c.out + [KeepAlive]
  {
  }

  /** What each step of a connection does when it is its turn. */
  lemma StepsRunTheHandler(s: State, w: WatcherId, c: Conn, timeout: bool)
    requires c.stream.jobId in s.jobs
    ensures c.stage.Fetched? ==>
      var d := ConnStep(s, w, c, Attach(w)).0;
      d.stage.Subscribing? && d.stream == Opened(c.stream.jobId, c.stream.fetchedProgress) && d.since == s.delivered
    ensures c.stage.Subscribing? ==>
      var (d, sent) := ConnStep(s, w, c, RunSubscribe(w, false));
      d.stage.SubscribeRan? && sent == [Subscribe(w, c.stream.jobId)]
    ensures c.stage.SubscribeRan? ==>
      var d := ConnStep(s, w, c, SubscribeReply(w)).0;
      d.stage.Reading? && d.stream.unsubscribe && d.stream.out == c.stream.out
    ensures c.stage.Reading? ==>
      var (d, sent) := ConnStep(s, w, c, RunGetState(w));
      var job := s.jobs[c.stream.jobId];
      && sent == [GetState(w)]
      && d.stage == Answered(if job.final == Some(Completed) then QueueCompleted
                             else if job.final.Some? then QueueFailed
                             else if job.stage.Waiting? then QueueWaiting else QueueActive)
    ensures c.stage.Answered? ==>
      var d := ConnStep(s, w, c, StateReply(w)).0;
      d.stage == Finished(c.stage.state) && d.stream == Snapshot(c.stream, c.stage.state)
    ensures !c.stage.Fetched? && !c.stream.Closed() ==>
      var d := ConnStep(s, w, c, Disconnect(w, timeout)).0;
      && d.stream.Closed() && (d.stream.attached <==> c.stream.attached && !c.stream.unsubscribe)
      && (c.stream.unsubscribe ==> d.stream.unsub.Sent? && d.stream.ends == c.stream.ends)
      && (!c.stream.unsubscribe ==> d.stream.ends == c.stream.ends + 1)
    ensures c.stream.unsub.Sent? && c.unsubscribedAt.None? ==>
      ConnStep(s, w, c, RunUnsubscribe(w)).1 == [Unsubscribe(w, c.stream.jobId)]
    ensures c.stream.unsub.Sent? ==>
      ConnStep(s, w, c, UnsubscribeReply(w)).0.stream.ends == c.stream.ends + 1
  {
  }

  /** A request takes the job's progress as it is fetched, long before its state is read. */
  lemma FetchTakesProgress(s: State, w: WatcherId, j: JobId)
    requires j in s.jobs && w !in s.conns
    ensures var t := Apply(s, Fetch(w, j));
            && w in t.conns && t.conns[w].stage.Fetched? && t.jobs == s.jobs && t.log == s.log
            && t.conns[w].stream.jobId == j && t.conns[w].stream.fetchedProgress == s.jobs[j].progress
  {
  }

  /** An update is recorded, and published as it is. */
  lemma UpdateIsPublished(job: Job, j: JobId, value: int, published: bool, at: nat)
    ensures var (after, sent) := JobStep(job, j, UpdateProgress(j, value, published), at);
            after == job.(progress := value) && sent == if published then [Publish(JobEvent(j, Processing, value))] else []
  {
  }

  /** The events written are the live ones; once through the snapshot, with it at one place among them. */
  ghost predicate Arranged(live: seq<JobEvent>, c: Conn) {
    if !c.stage.Finished? then EventsOf(c.stream.out) == live
    else (c.stream.Closed() && EventsOf(c.stream.out) == live) || SnapshotAmong(live, c)
  }

  ghost predicate SnapshotAmong(live: seq<JobEvent>, c: Conn)
    requires c.stage.Finished?
  {
    exists n :: 0 <= n <= |live| && SnapshotAt(live, c, n)
  }

  ghost predicate SnapshotAt(live: seq<JobEvent>, c: Conn, n: nat)
    requires c.stage.Finished? && n <= |live|
  {
    EventsOf(c.stream.out) == live[..n] + [SnapshotEvent(c.stream, c.stage.state)] + live[n..]
  }

  lemma EventsSnoc(out: seq<Item>, item: Item)
    ensures EventsOf(out + [item]) == EventsOf(out) + if item.Data? then [item.event] else []
  {
    assert (out + [item])[..|out|] == out;
  }

  /** One more live event. */
  lemma OneMoreLive(live: seq<JobEvent>, c: Conn, d: Conn, e: JobEvent)
    requires Arranged(live, c) && !c.stream.Closed() && d.stage == c.stage
    requires d.stream.jobId == c.stream.jobId && d.stream.fetchedProgress == c.stream.fetchedProgress
    requires d.stream.out == c.stream.out + [Data(e)]
    ensures Arranged(live + [e], d)
  {
    EventsSnoc(c.stream.out, Data(e));
    if c.stage.Finished? {
      var n :| 0 <= n <= |live| && SnapshotAt(live, c, n);
      var snap := [SnapshotEvent(c.stream, c.stage.state)];
      assert (live + [e])[..n] == live[..n] && (live + [e])[n..] == live[n..] + [e];
      assert live[..n] + snap + live[n..] + [e] == live[..n] + snap + (live[n..] + [e]);
      assert SnapshotAt(live + [e], d, n);
    }
  }

  /** Nothing but bookkeeping and keep-alives. */
  lemma NoEvent(live: seq<JobEvent>, c: Conn, d: Conn)
    requires Arranged(live, c) && !c.stream.Closed() && (d.stage == c.stage || (!c.stage.Finished? && !d.stage.Finished?))
    requires d.stream.jobId == c.stream.jobId && d.stream.fetchedProgress == c.stream.fetchedProgress
    requires EventsOf(d.stream.out) == EventsOf(c.stream.out)
    ensures Arranged(live, d)
  {
    if c.stage.Finished? {
      var n :| 0 <= n <= |live| && SnapshotAt(live, c, n);
      assert SnapshotAt(live, d, n);
    }
  }

  lemma ReceiveArranges(c: Conn, e: JobEvent, at: nat)
    requires Arranged(c.stream.got, c) && !c.stream.Closed() && c.stream.attached && c.stream.ends == 0
    ensures Arranged(Receive(c, e, at).stream.got, Receive(c, e, at))
  {
    var d := Receive(c, e, at);
    if e.jobId == c.stream.jobId && SchemaValid(e) {
      LiveEventIsWritten(c.stream, e);
      OneMoreLive(c.stream.got, c, d, e);
    } else {
      ChannelForIsInjective(e.jobId, c.stream.jobId);
      NoEvent(c.stream.got, c, d);
    }
  }

  lemma SnapshotArranges(c: Conn, at: nat)
    requires c.stage.Answered? && Arranged(c.stream.got, c) && !c.stream.Closed() && c.stream.ends == 0
    ensures var d := Track(c, Snapshot(c.stream, c.stage.state), at).(stage := Finished(c.stage.state));
            Arranged(d.stream.got, d)
  {
    var d := Track(c, Snapshot(c.stream, c.stage.state), at).(stage := Finished(c.stage.state));
    var live := c.stream.got;
    SnapshotIsWritten(c.stream, c.stage.state);
    EventsSnoc(c.stream.out, Data(SnapshotEvent(c.stream, c.stage.state)));
    assert live[..|live|] == live && live[|live|..] == [];
    assert SnapshotAt(live, d, |live|);
  }

  lemma ConnStepArranges(s: State, w: WatcherId, c: Conn, a: Step)
    requires IsConnStep(a) && c.stream.jobId in s.jobs && !c.stage.Fetched? && Lifecycle(c)
    requires Arranged(c.stream.got, c) && !c.stream.Closed()
    ensures var d := ConnStep(s, w, c, a).0; Arranged(d.stream.got, d)
  {
    var d := ConnStep(s, w, c, a).0;
    if a.StateReply? && c.stage.Answered? {
      SnapshotArranges(c, s.delivered);
    } else {
      EventsSnoc(c.stream.out, KeepAlive);
      NoEvent(c.stream.got, c, d);
    }
  }

  /** An open connection has written what it heard. */
  ghost predicate OpenArranged(s: State) {
    forall w :: w in s.conns && !s.conns[w].stage.Fetched? && !s.conns[w].stream.Closed() ==>
      Arranged(s.conns[w].stream.got, s.conns[w])
  }

  /** Of a connection that was open, whether or not the step closes it. */
  lemma StepArranges(s: State, w: WatcherId, a: Step)
    requires Inv(s) && OpenArranged(s) && w in s.conns && !s.conns[w].stream.Closed()
    ensures w in Apply(s, a).conns
    ensures var d := Apply(s, a).conns[w]; !d.stage.Fetched? ==> Arranged(d.stream.got, d)
  {
    var c := s.conns[w];
    assert ConnInv(s, w, c);
    ConnAfter(s, w, a);
    if c.stage.Fetched? {
      FetchedArranges(s, w, c, a);
    } else if IsConnStep(a) && a.w == w {
      ConnStepArranges(s, w, c, a);
    } else if a.Deliver? && s.delivered < |Wire(s.log)| {
      ReceiveArranges(c, Wire(s.log)[s.delivered], s.delivered + 1);
    }
  }

  lemma FetchedArranges(s: State, w: WatcherId, c: Conn, a: Step)
    requires c.stage.Fetched? && c.stream.jobId in s.jobs && !c.stream.attached
    ensures var d := ConnStep(s, w, c, a).0; !d.stage.Fetched? ==> Arranged(d.stream.got, d)
    ensures forall e, at :: Receive(c, e, at).stage.Fetched?
  {
  }

  lemma ApplyArranges(s: State, a: Step)
    requires Inv(s) && OpenArranged(s)
    ensures OpenArranged(Apply(s, a))
  {
    var t := Apply(s, a);
    forall w | w in t.conns && !t.conns[w].stage.Fetched? && !t.conns[w].stream.Closed()
      ensures Arranged(t.conns[w].stream.got, t.conns[w])
    {
      if w !in s.conns {
        ArrivesFetched(s, w, a);
      } else {
        assert ConnInv(s, w, s.conns[w]);
        if s.conns[w].stream.Closed() {
          ClosedStep(s, w, a);
        } else {
          StepArranges(s, w, a);
        }
      }
    }
  }

  /** A connection past its fetch was there before the step. */
  lemma ArrivesFetched(s: State, w: WatcherId, a: Step)
    requires w !in s.conns && w in Apply(s, a).conns
    ensures Apply(s, a).conns[w].stage.Fetched?
  {
  }

  lemma {:induction false} ExecArranges(steps: seq<Step>)
    ensures OpenArranged(ExecFrom(INIT, steps))
  {
    if steps != [] {
      var front := steps[..|steps| - 1];
      ExecArranges(front);
      ExecKeeps(INIT, front);
      ApplyArranges(ExecFrom(INIT, front), steps[|steps| - 1]);
    }
  }

  /**
   * While a connection is open, the events it has written are exactly those its callback was given, in order:
   * those alone before its snapshot, and after it with the snapshot at one place among them.
   */
  lemma WrittenWhileOpen(s: State, w: WatcherId)
    requires Reachable(s) && w in s.conns && !s.conns[w].stage.Fetched? && !s.conns[w].stream.Closed()
    ensures var c := s.conns[w];
            if !c.stage.Finished? then EventsOf(c.stream.out) == c.stream.got else SnapshotAmong(c.stream.got, c)
  {
    var steps :| ExecFrom(INIT, steps) == s;
    ExecArranges(steps);
  }

  /**
   * Once it has been closed, by whatever step, it is the same for good of the events heard up to the closing;
   * only the snapshot may still be written, or be missing because the response had ended.
   */
  lemma WrittenOnceClosed(s: State, w: WatcherId, a: Step, more: seq<Step>)
    requires Reachable(s) && w in s.conns && !s.conns[w].stream.Closed()
    requires w in Apply(s, a).conns && Apply(s, a).conns[w].stream.Closed()
    ensures var t := ExecFrom(Apply(s, a), more);
            w in t.conns && Arranged(Apply(s, a).conns[w].stream.got, t.conns[w])
  {
    var steps :| ExecFrom(INIT, steps) == s;
    ExecArranges(steps);
    ReachableInv(s);
    ReachableStep(s, a);
    ReachableInv(Apply(s, a));
    StepArranges(s, w, a);
    var c := Apply(s, a).conns[w];
    assert ConnInv(Apply(s, a), w, c);
    AfterCleanup(Apply(s, a), w, more);
    StaysArranged(c.stream.got, c, ExecFrom(Apply(s, a), more).conns[w]);
  }

  lemma StaysArranged(live: seq<JobEvent>, c: Conn, d: Conn)
    requires Arranged(live, c) && c.stream.Closed() && AfterClose(c, d)
    ensures Arranged(live, d)
  {
    if c.stage.Finished? {
      if SnapshotAmong(live, c) {
        var n :| 0 <= n <= |live| && SnapshotAt(live, c, n);
        assert SnapshotAt(live, d, n);
      }
    } else if d.stage.Finished? && d.stream.out != c.stream.out {
      EventsSnoc(c.stream.out, Data(SnapshotEvent(c.stream, d.stage.state)));
      assert live[..|live|] == live && live[|live|..] == [];
      assert SnapshotAt(live, d, |live|);
    }
  }
}
