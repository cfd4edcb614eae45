/**
 * Queue, workers, Redis pub/sub, one shared subscriber connection and any number of event streams as one
 * machine. Every command Redis executes is one entry of `log`; every await of the code is a place where
 * other steps may run. A run is any schedule of steps; a step that is not enabled leaves the state alone.
 */
module Protocol {
  import opened Wrappers
  import opened JobEvents
  import opened EventStream
  import opened Worker

  type WatcherId = nat

  /** Commands whose place in Redis's execution order matters. */
  datatype Command =
    | Subscribe(w: WatcherId, jobId: JobId)
    | Unsubscribe(w: WatcherId, jobId: JobId)
    | Publish(event: JobEvent)
    | GetState(w: WatcherId)
    | Commit(job: JobId, final: Phase)

  /** Where a worker's handler stands; `Leaving` is after the handler, before the queue has acted. */
  datatype JobStage =
    | Waiting
    | Starting
    | Running
    | Announcing(exit: Exit)
    | Counting(exit: Exit)
    | Leaving(exit: Exit)
    | Settled

  /** `announced`, `publishedAt` and `committedAt` are history. */
  datatype Job = Job(
    attempts: nat,
    made: nat,
    stage: JobStage,
    progress: int,
    announced: Option<Phase>,
    publishedAt: Option<nat>,
    final: Option<Phase>,
    committedAt: Option<nat>)

  /** Where an event-stream request stands between its awaits. */
  datatype ConnStage =
    | Fetched
    | Subscribing
    | SubscribeRan
    | SubscribeFailed
    | Reading
    | Answered(state: QueueState)
    | Finished(state: QueueState)

  /** `since` and `until` bound the messages of the connection during which the listener was attached. */
  datatype Conn = Conn(
    stream: Stream,
    stage: ConnStage,
    since: nat,
    until: Option<nat>,
    subscribedAt: Option<nat>,
    readAt: Option<nat>,
    unsubscribedAt: Option<nat>)

  datatype State = State(
    jobs: map<JobId, Job>,
    conns: map<WatcherId, Conn>,
    log: seq<Command>,
    delivered: nat,
    completedTotal: nat,
    failedTotal: nat,
    completedTally: set<JobId>,
    failedTally: set<JobId>)

  const INIT := State(map[], map[], [], 0, 0, 0, {}, {})

  /** Whether Redis currently routes the job's channel to the connection. */
  function Live(log: seq<Command>, jobId: JobId): bool {
    if log == [] then false
    else
      match log[|log| - 1]
      case Subscribe(_, j) => if j == jobId then true else Live(log[..|log| - 1], jobId)
      case Unsubscribe(_, j) => if j == jobId then false else Live(log[..|log| - 1], jobId)
      case _ => Live(log[..|log| - 1], jobId)
  }

  /** The messages Redis has put on the subscriber connection, in order. */
  function Wire(log: seq<Command>): seq<JobEvent> {
    if log == [] then []
    else
      var front := log[..|log| - 1];
      match log[|log| - 1]
      case Publish(e) => if Live(front, e.jobId) then Wire(front) + [e] else Wire(front)
      case _ => Wire(front)
  }

  datatype Step =
    | AddJob(j: JobId, attempts: nat)
    | Pick(j: JobId)
    | PublishStart(j: JobId, accepted: bool)
    | UpdateProgress(j: JobId, value: int, published: bool)
    | RunProcessor(j: JobId, attempt: Attempt)
    | PublishOutcome(j: JobId, accepted: bool)
    | Count(j: JobId, accepted: bool)
    | QueueActs(j: JobId)
    | Fetch(w: WatcherId, j: JobId)
    | Attach(w: WatcherId)
    | RunSubscribe(w: WatcherId, fails: bool)
    | SubscribeReply(w: WatcherId)
    | RunGetState(w: WatcherId)
    | StateReply(w: WatcherId)
    | Deliver
    | Disconnect(w: WatcherId, timeout: bool)
    | RunUnsubscribe(w: WatcherId)
    | UnsubscribeReply(w: WatcherId)
    | KeepAliveTimer(w: WatcherId)

  function QueueStateOf(job: Job): QueueState {
    match job.final
    case Some(p) => if p.Completed? then QueueCompleted else QueueFailed
    case None => if job.stage.Waiting? then QueueWaiting else QueueActive
  }

  function JobStep(job: Job, j: JobId, a: Step, at: nat): (Job, seq<Command>) {
    match a
    case Pick(_) =>
      if job.stage.Waiting? then (job.(stage := Starting), []) else (job, [])
    case PublishStart(_, accepted) =>
      if job.stage.Starting?
      then (job.(stage := Running), if accepted then [Publish(StartEvent(j))] else [])
      else (job, [])
    case UpdateProgress(_, value, published) =>
      (job.(progress := value), if published then [Publish(JobEvent(j, Processing, value))] else [])
    case RunProcessor(_, attempt) =>
      if job.stage.Running? then
        var x := RunJobWithRetryPolicy(attempt);
        (job.(stage := if Announces(x, job.attempts, job.made) then Announcing(x) else Leaving(x)), [])
      else (job, [])
    case PublishOutcome(_, accepted) =>
      if job.stage.Announcing? then
        var p := OutcomeOf(job.stage.exit);
        (job.(stage := Counting(job.stage.exit), announced := Some(p),
              publishedAt := if accepted then Some(at) else None),
         if accepted then [Publish(OutcomeEvent(j, p))] else [])
      else (job, [])
    case Count(_, _) =>
      if job.stage.Counting? then (job.(stage := Leaving(job.stage.exit)), []) else (job, [])
    case QueueActs(_) =>
      if !job.stage.Leaving? then (job, [])
      else if QueueRetries(job.stage.exit, job.attempts, job.made)
      then (job.(stage := Waiting, made := job.made + 1), [])
      else
        var p := OutcomeOf(job.stage.exit);
        (job.(stage := Settled, final := Some(p), committedAt := Some(at)), [Commit(j, p)])
    case _ => (job, [])
  }

  /** Keeps `until`: the listener came off when `at` messages had been delivered. */
  function Track(c: Conn, stream: Stream, at: nat): Conn {
    c.(stream := stream, until := if c.stream.attached && !stream.attached then Some(at) else c.until)
  }

  function ConnStep(s: State, w: WatcherId, c: Conn, a: Step): (Conn, seq<Command>)
    requires c.stream.jobId in s.jobs
  {
    match a
    case Attach(_) =>
      if c.stage.Fetched?
      then (Conn(Opened(c.stream.jobId, c.stream.fetchedProgress), Subscribing, s.delivered, None, None, None, None), [])
      else (c, [])
    case RunSubscribe(_, fails) =>
      if !c.stage.Subscribing? then (c, [])
      else if fails then (c.(stage := SubscribeFailed), [])
      else (c.(stage := SubscribeRan, subscribedAt := Some(|s.log|)), [Subscribe(w, c.stream.jobId)])
    case SubscribeReply(_) =>
      if c.stage.SubscribeRan?
      then (c.(stage := Reading, stream := SubscribeReturns(c.stream)), [])
      else (c, [])
    case RunGetState(_) =>
      if c.stage.Reading?
      then (c.(stage := Answered(QueueStateOf(s.jobs[c.stream.jobId])), readAt := Some(|s.log|)), [GetState(w)])
      else (c, [])
    case StateReply(_) =>
      if c.stage.Answered?
      then (Track(c, Snapshot(c.stream, c.stage.state), s.delivered).(stage := Finished(c.stage.state)), [])
      else (c, [])
    case Disconnect(_, timeout) =>
      if c.stage.Fetched? then (c, [])
      else (Track(c, Cleanup(c.stream, if timeout then TimedOut else Hangup), s.delivered), [])
    case RunUnsubscribe(_) =>
      if c.stream.unsub.Sent? && c.unsubscribedAt.None?
      then (c.(unsubscribedAt := Some(|s.log|)), [Unsubscribe(w, c.stream.jobId)])
      else (c, [])
    case UnsubscribeReply(_) =>
      if c.stream.unsub.Sent? then (c.(stream := UnsubscribeReturns(c.stream)), []) else (c, [])
    case KeepAliveTimer(_) =>
      if c.stage.Fetched? then (c, []) else (c.(stream := KeepAliveTick(c.stream)), [])
    case _ => (c, [])
  }

  function Receive(c: Conn, e: JobEvent, at: nat): Conn {
    Track(c, OnMessage(c.stream, ChannelFor(e.jobId), Parsed(e)), at)
  }

  predicate IsJobStep(a: Step) {
    || a.Pick? || a.PublishStart? || a.UpdateProgress? || a.RunProcessor?
    || a.PublishOutcome? || a.Count? || a.QueueActs?
  }

  predicate IsConnStep(a: Step) {
    || a.Attach? || a.RunSubscribe? || a.SubscribeReply? || a.RunGetState? || a.StateReply?
    || a.Disconnect? || a.RunUnsubscribe? || a.UnsubscribeReply? || a.KeepAliveTimer?
  }

  function Tallied(s: State, j: JobId, a: Step): State
    requires j in s.jobs
  {
    if a.Count? && a.accepted && s.jobs[j].stage.Counting? then
      if s.jobs[j].stage.exit.Returned?
      then s.(completedTotal := s.completedTotal + 1, completedTally := s.completedTally + {j})
      else s.(failedTotal := s.failedTotal + 1, failedTally := s.failedTally + {j})
    else s
  }

  function ApplyToJob(s: State, j: JobId, a: Step): State
    requires j in s.jobs
  {
    var (job, sent) := JobStep(s.jobs[j], j, a, |s.log|);
    Tallied(s, j, a).(jobs := s.jobs[j := job], log := s.log + sent)
  }

  function ApplyToConn(s: State, w: WatcherId, a: Step): State
    requires w in s.conns && s.conns[w].stream.jobId in s.jobs
  {
    var (c, sent) := ConnStep(s, w, s.conns[w], a);
    s.(conns := s.conns[w := c], log := s.log + sent)
  }

  /** One message arrives: every attached listener of the connection is called with it. */
  function ApplyDelivery(s: State): State
    requires s.delivered < |Wire(s.log)|
  {
    var e := Wire(s.log)[s.delivered];
    s.(conns := map w | w in s.conns :: Receive(s.conns[w], e, s.delivered + 1), delivered := s.delivered + 1)
  }

  function ApplyArrival(s: State, a: Step): State {
    match a
    case AddJob(j, attempts) =>
      if j in s.jobs then s
      else s.(jobs := s.jobs[j := Job(attempts, 0, Waiting, 0, None, None, None, None)])
    case Fetch(w, j) =>
      if j !in s.jobs || w in s.conns then s
      else
        var stream := Opened(j, s.jobs[j].progress).(attached := false);
        s.(conns := s.conns[w := Conn(stream, Fetched, 0, None, None, None, None)])
    case _ => s
  }

  function Apply(s: State, a: Step): State {
    if IsJobStep(a) then
      if a.j in s.jobs then ApplyToJob(s, a.j, a) else s
    else if IsConnStep(a) then
      if a.w in s.conns && s.conns[a.w].stream.jobId in s.jobs then ApplyToConn(s, a.w, a) else s
    else if a.Deliver? then
      if s.delivered < |Wire(s.log)| then ApplyDelivery(s) else s
    else ApplyArrival(s, a)
  }

  function ExecFrom(s: State, steps: seq<Step>): State {
    if steps == [] then s else Apply(ExecFrom(s, steps[..|steps| - 1]), steps[|steps| - 1])
  }

  ghost predicate Reachable(s: State) {
    exists steps :: ExecFrom(INIT, steps) == s
  }
}
