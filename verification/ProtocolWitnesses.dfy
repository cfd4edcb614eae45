/** Schedules that show the unqualified promises false: an outcome lost, a listener leaked, a neighbour silenced. */
module ProtocolWitnesses {
  import opened Wrappers
  import opened JobEvents
  import opened EventStream
  import opened Worker
  import opened Protocol
  import opened ProtocolSteps
  import opened ProtocolTheorems

  const J: JobId := "1"
  const LOST_LOG := [
    Publish(StartEvent(J)), Publish(OutcomeEvent(J, Completed)), Subscribe(0, J), GetState(0), Commit(J, Completed)]
  const SILENCED_LOG := [
    Publish(StartEvent(J)), Subscribe(0, J), GetState(0), Subscribe(1, J), GetState(1), Unsubscribe(0, J),
    Publish(OutcomeEvent(J, Completed)), Commit(J, Completed)]
  const SUCCESS := Attempt(true, true, None)

  /** Redis runs each command in turn; nothing is routed to the connection when the publishes happen. */
  lemma NothingOnWire()
    ensures Wire(LOST_LOG) == [] && Wire(SILENCED_LOG) == []
  {
    assert LOST_LOG[..5] == LOST_LOG && SILENCED_LOG[..8] == SILENCED_LOG;
    assert LOST_LOG[..1] == [Publish(StartEvent(J))] && !Live(LOST_LOG[..1], J);
    WireSnoc(LOST_LOG, 5);
    assert SILENCED_LOG[..6][5] == Unsubscribe(0, J) && !Live(SILENCED_LOG[..6], J);
    WireSnoc(SILENCED_LOG, 8);
  }

  lemma {:induction false} WireSnoc(log: seq<Command>, n: nat)
    requires n <= |log|
    requires forall i :: 0 <= i < n && log[i].Publish? ==> !Live(log[..i], log[i].event.jobId)
    ensures Wire(log[..n]) == []
  {
    if n > 0 {
      WireSnoc(log, n - 1);
      assert log[..n][..n - 1] == log[..n - 1];
    }
  }

  /** A job that is running its only attempt, nobody watching yet. */
  lemma RunningJob() returns (s: State)
    ensures Reachable(s) && s.conns == map[] && s.delivered == 0
    ensures s.jobs == map[J := Job(1, 0, Running, 0, None, None, None, None)]
    ensures s.log == [Publish(StartEvent(J))]
  {
    assert ExecFrom(INIT, []) == INIT;
    ReachableStep(INIT, AddJob(J, 1));
    var s1 := Apply(INIT, AddJob(J, 1));
    ReachableStep(s1, Pick(J));
    var s2 := Apply(s1, Pick(J));
    ReachableStep(s2, PublishStart(J, true));
    s := Apply(s2, PublishStart(J, true));
  }

  lemma ConnMoves(s: State, w: WatcherId, a: Step, d: Conn, sent: seq<Command>) returns (t: State)
    requires Reachable(s) && IsConnStep(a) && a.w == w && w in s.conns && s.conns[w].stream.jobId in s.jobs
    requires ConnStep(s, w, s.conns[w], a) == (d, sent)
    ensures Reachable(t) && t == s.(conns := s.conns[w := d], log := s.log + sent)
  {
    ReachableStep(s, a);
    t := Apply(s, a);
  }

  /** The watcher connects, and Redis runs its subscribe. */
  lemma Join(s: State, w: WatcherId) returns (t: State)
    requires Reachable(s) && J in s.jobs && w !in s.conns
    ensures Reachable(t) && t.jobs == s.jobs && t.delivered == s.delivered && t.log == s.log + [Subscribe(w, J)]
    ensures t.conns == s.conns[w := Conn(Opened(J, s.jobs[J].progress), SubscribeRan, s.delivered, None, Some(|s.log|), None, None)]
  {
    ReachableStep(s, Fetch(w, J));
    t := Apply(s, Fetch(w, J));
    var c := Conn(Opened(J, s.jobs[J].progress), Subscribing, s.delivered, None, None, None, None);
    t := ConnMoves(t, w, Attach(w), c, []);
    t := ConnMoves(t, w, RunSubscribe(w, false), c.(stage := SubscribeRan, subscribedAt := Some(|s.log|)), [Subscribe(w, J)]);
  }

  /** The watcher connects and gets through its subscribe and its state read while the job stays active. */
  lemma Watch(s: State, w: WatcherId) returns (t: State)
    requires Reachable(s) && J in s.jobs && w !in s.conns
    requires s.jobs[J].final.None? && !s.jobs[J].stage.Waiting?
    ensures Reachable(t) && t.jobs == s.jobs && t.delivered == s.delivered
    ensures t.log == s.log + [Subscribe(w, J), GetState(w)]
    ensures w in t.conns && t.conns == s.conns[w := t.conns[w]]
    ensures t.conns[w].stream.jobId == J && t.conns[w].stage == Finished(QueueActive) && !t.conns[w].stream.Closed()
    ensures t.conns[w].stream.unsubscribe && t.conns[w].unsubscribedAt.None?
  {
    t := Join(s, w);
    t := ReadActive(t, w);
  }

  lemma ReadActive(s: State, w: WatcherId) returns (t: State)
    requires Reachable(s) && J in s.jobs && w in s.conns && s.jobs[J].final.None? && !s.jobs[J].stage.Waiting?
    requires s.conns[w].stage.SubscribeRan? && s.conns[w].stream.jobId == J && !s.conns[w].stream.Closed()
    requires s.conns[w].unsubscribedAt.None?
    ensures Reachable(t) && t.jobs == s.jobs && t.delivered == s.delivered && t.log == s.log + [GetState(w)]
    ensures w in t.conns && t.conns == s.conns[w := t.conns[w]]
    ensures t.conns[w].stream.jobId == J && t.conns[w].stage == Finished(QueueActive) && !t.conns[w].stream.Closed()
    ensures t.conns[w].stream.unsubscribe && t.conns[w].unsubscribedAt.None?
  {
    var c := ConnStep(s, w, s.conns[w], SubscribeReply(w)).0;
    var s1 := ConnMoves(s, w, SubscribeReply(w), c, []);
    var d := c.(stage := Answered(QueueActive), readAt := Some(|s.log|));
    var s2 := ConnMoves(s1, w, RunGetState(w), d, [GetState(w)]);
    var e := ConnStep(s2, w, d, StateReply(w)).0;
    t := ConnMoves(s2, w, StateReply(w), e, []);
  }

  /** The watcher hangs up and its unsubscribe runs. */
  lemma Leave(s: State, w: WatcherId) returns (t: State)
    requires Reachable(s) && w in s.conns && s.conns[w].stream.jobId == J && J in s.jobs && s.conns[w].stage.Finished?
    requires !s.conns[w].stream.Closed() && s.conns[w].stream.unsubscribe && s.conns[w].unsubscribedAt.None?
    ensures Reachable(t) && t.jobs == s.jobs && t.delivered == s.delivered && t.log == s.log + [Unsubscribe(w, J)]
    ensures w in t.conns && t.conns == s.conns[w := t.conns[w]]
  {
    var (c, _) := ConnStep(s, w, s.conns[w], Disconnect(w, false));
    t := ConnMoves(s, w, Disconnect(w, false), c, []);
    t := ConnMoves(t, w, RunUnsubscribe(w), c.(unsubscribedAt := Some(|s.log|)), [Unsubscribe(w, J)]);
  }

  lemma Succeed(s: State) returns (t: State)
    requires Reachable(s) && J in s.jobs && s.jobs[J] == Job(1, 0, Running, 0, None, None, None, None)
    ensures Reachable(t) && t.conns == s.conns && t.delivered == s.delivered
    ensures t.log == s.log + [Publish(OutcomeEvent(J, Completed))]
    ensures J in t.jobs && t.jobs[J] == Job(1, 0, Counting(Exit.Returned), 0, Some(Completed), Some(|s.log|), None, None)
  {
    ReachableStep(s, RunProcessor(J, SUCCESS));
    var s1 := Apply(s, RunProcessor(J, SUCCESS));
    ReachableStep(s1, PublishOutcome(J, true));
    t := Apply(s1, PublishOutcome(J, true));
  }

  lemma Settle(s: State) returns (t: State)
    requires Reachable(s) && J in s.jobs && s.jobs[J].stage == Counting(Exit.Returned)
    ensures Reachable(t) && t.conns == s.conns && t.delivered == s.delivered
    ensures t.log == s.log + [Commit(J, Completed)]
    ensures J in t.jobs && t.jobs[J].final == Some(Completed) && t.jobs[J].publishedAt == s.jobs[J].publishedAt
  {
    ReachableStep(s, Count(J, true));
    var s1 := Apply(s, Count(J, true));
    ReachableStep(s1, QueueActs(J));
    t := Apply(s1, QueueActs(J));
  }

  ghost predicate Lost(s: State, w: WatcherId) {
    && Reachable(s) && Quiet(s, w) && !s.conns[w].stream.Closed() && !Informed(s.conns[w].stream)
    && s.jobs[s.conns[w].stream.jobId].publishedAt.Some?
  }

  /** Connecting between the publish and the commit loses the outcome, though every publish was accepted. */
  lemma OutcomeCanBeLost()
    ensures exists s, w :: Lost(s, w) && !UnsubscribedBetween(s.log, s.conns[w].stream.jobId, 0, |s.log|)
  {
    var s := RunningJob();
    s := Succeed(s);
    s := Watch(s, 0);
    s := Settle(s);
    assert s.log == LOST_LOG;
    NothingOnWire();
    InformedExactlyHere(s, 0);
    assert Lost(s, 0);
  }

  ghost predicate SubscribedBeforePublish(s: State, w: WatcherId, i: nat, k: nat)
    requires Lost(s, w)
  {
    var j := s.conns[w].stream.jobId;
    i < k < |s.log| && s.log[i] == Subscribe(w, j) && s.jobs[j].publishedAt == Some(k)
  }

  /** A watcher subscribed before the publish is silenced when another watcher of the same job leaves. */
  lemma NeighbourSilences()
    ensures exists s, w, i, k :: Lost(s, w) && SubscribedBeforePublish(s, w, i, k)
  {
    var s := RunningJob();
    s := Watch(s, 0);
    s := Watch(s, 1);
    s := Leave(s, 0);
    s := Succeed(s);
    s := Settle(s);
    assert s.log == SILENCED_LOG;
    NothingOnWire();
    InformedExactlyHere(s, 1);
    assert Lost(s, 1);
    assert SubscribedBeforePublish(s, 1, 3, 6);
  }

  lemma InformedExactlyHere(s: State, w: WatcherId)
    requires Reachable(s) && Quiet(s, w) && !s.conns[w].stream.Closed()
    ensures !Informed(s.conns[w].stream)
  {
    InformedExactly(s, w);
  }

  ghost predicate AttachedForGood(s: State, w: WatcherId) {
    forall more :: w in ExecFrom(s, more).conns && ExecFrom(s, more).conns[w].stream.attached
  }

  /** Hanging up before the subscribe reply leaves the listener attached to the shared connection for good. */
  lemma ListenerCanLeak()
    ensures exists s, w :: Reachable(s) && w in s.conns && s.conns[w].stream.ends == 1 && AttachedForGood(s, w)
  {
    var s := RunningJob();
    ReachableStep(s, Fetch(0, J));
    s := Apply(s, Fetch(0, J));
    ReachableStep(s, Attach(0));
    s := Apply(s, Attach(0));
    ReachableStep(s, Disconnect(0, false));
    s := Apply(s, Disconnect(0, false));
    forall more
      ensures 0 in ExecFrom(s, more).conns && ExecFrom(s, more).conns[0].stream.attached
    {
      AfterCleanup(s, 0, more);
    }
    assert AttachedForGood(s, 0);
  }
}
