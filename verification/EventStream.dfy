/**
 * One `GET /jobs/:id/events` connection: the synchronous code sections of the handler that run
 * between its awaits, first as functions on values, then as the class whose fields they update.
 */
module EventStream {
  import opened Wrappers
  import opened JobEvents

  /** What has been written to the response. */
  datatype Item = Data(event: JobEvent) | KeepAlive

  /** Why the first effective cleanup ran. */
  datatype Cause = Hangup | TimedOut | LiveOutcome | SnapshotOutcome

  /** Progress of the UNSUBSCRIBE that cleanup awaits. */
  datatype Unsub = NotSent | Sent | Returned

  /** The answer of `job.getState()`, merged to what the handler distinguishes. */
  datatype QueueState = QueueWaiting | QueueActive | QueueCompleted | QueueFailed

  /**
   * `unsubscribe` is the variable being non-null and `ends` counts calls of `res.end`.
   * `cause`, `early` and `got` are history: why cleanup took effect, whether it found
   * `unsubscribe` null, and every event handed to the callback.
   */
  datatype Stream = Stream(
    jobId: JobId,
    fetchedProgress: int,
    unsubscribe: bool,
    attached: bool,
    unsub: Unsub,
    ends: nat,
    out: seq<Item>,
    cause: Option<Cause>,
    early: bool,
    got: seq<JobEvent>)
  {
    predicate Closed() {
      cause.Some?
    }
  }

  function Opened(jobId: JobId, fetchedProgress: int): Stream {
    Stream(jobId, fetchedProgress, false, true, NotSent, 0, [], None, false, [])
  }

  /** Bytes written after `res.end` go nowhere. */
  function Write(c: Stream, item: Item): Stream {
    if c.ends == 0 then c.(out := c.out + [item]) else c
  }

  function Cleanup(c: Stream, why: Cause): Stream {
    if c.Closed() then c
    else if c.unsubscribe then c.(cause := Some(why), attached := false, unsub := Sent)
    else c.(cause := Some(why), early := true, ends := c.ends + 1)
  }

  function OnEvent(c: Stream, e: JobEvent): Stream {
    if c.Closed() then c
    else if Terminal(e) then Cleanup(Write(c, Data(e)), LiveOutcome)
    else Write(c, Data(e))
  }

  function OnMessage(c: Stream, channel: string, payload: Payload): Stream {
    if c.attached && channel == ChannelFor(c.jobId) && payload.Parsed? && SchemaValid(payload.event)
    then OnEvent(c.(got := c.got + [payload.event]), payload.event)
    else c
  }

  function SubscribeReturns(c: Stream): Stream {
    c.(unsubscribe := true)
  }

  function SnapshotEvent(c: Stream, state: QueueState): JobEvent {
    match state
    case QueueCompleted => JobEvent(c.jobId, Completed, 100)
    case QueueFailed => JobEvent(c.jobId, Failed, 0)
    case QueueActive => JobEvent(c.jobId, Processing, c.fetchedProgress)
    case QueueWaiting => JobEvent(c.jobId, Queued, c.fetchedProgress)
  }

  /** The snapshot is written whether or not the connection has been closed meanwhile. */
  function Snapshot(c: Stream, state: QueueState): Stream {
    var e := SnapshotEvent(c, state);
    var written := Write(c, Data(e));
    if Terminal(e) then Cleanup(written, SnapshotOutcome) else written
  }

  function UnsubscribeReturns(c: Stream): Stream {
    c.(unsub := Returned, ends := c.ends + 1)
  }

  function KeepAliveTick(c: Stream): Stream {
    if c.Closed() then c else Write(c, KeepAlive)
  }

  /** The events among the items written, as the browser will see them. */
  function EventsOf(out: seq<Item>): seq<JobEvent> {
    if out == [] then []
    else
      var front := EventsOf(out[..|out| - 1]);
      match out[|out| - 1]
      case Data(e) => front + [e]
      case KeepAlive => front
  }

  predicate Informed(c: Stream) {
    exists i :: 0 <= i < |c.out| && c.out[i].Data? && Terminal(c.out[i].event)
  }

  /** The handler's closure: `closed`, `unsubscribe` and the response, mutated by callbacks and timers. */
  class Handler {
    const jobId: JobId
    const fetchedProgress: int
    var closed: bool
    var unsubscribe: bool
    var attached: bool
    var unsub: Unsub
    var ends: nat
    var out: seq<Item>
    ghost var cause: Option<Cause>
    ghost var early: bool
    ghost var got: seq<JobEvent>

    ghost predicate Valid()
      reads this
    {
      closed == cause.Some?
    }

    ghost function Model(): Stream
      reads this
    {
      Stream(jobId, fetchedProgress, unsubscribe, attached, unsub, ends, out, cause, early, got)
    }

    constructor (jobId: JobId, fetchedProgress: int)
      ensures Valid() && Model() == Opened(jobId, fetchedProgress)
    {
      this.jobId := jobId;
      this.fetchedProgress := fetchedProgress;
      closed, unsubscribe, attached, unsub, ends, out := false, false, true, NotSent, 0, [];
      cause, early, got := None, false, [];
    }

    method WriteItem(item: Item)
      requires Valid()
      modifies `out
      ensures Valid() && Model() == Write(old(Model()), item)
    {
      if ends == 0 {
        out := out + [item];
      }
    }

    method RunCleanup(ghost why: Cause)
      requires Valid()
      modifies this
      ensures Valid() && Model() == Cleanup(old(Model()), why)
    {
      if closed {
        return;
      }
      closed := true;
      cause := Some(why);
      if unsubscribe {
        attached := false;
        unsub := Sent;
      } else {
        early := true;
        ends := ends + 1;
      }
    }

    method Receive(channel: string, payload: Payload)
      requires Valid()
      modifies this
      ensures Valid() && Model() == OnMessage(old(Model()), channel, payload)
    {
      if !attached || channel != ChannelFor(jobId) {
        return;
      }
      match payload {
        case Malformed =>
        case Parsed(event) =>
          if !SchemaValid(event) {
            return;
          }
          got := got + [event];
          if closed {
            return;
          }
          WriteItem(Data(event));
          if event.state == Completed || event.state == Failed {
            RunCleanup(LiveOutcome);
          }
      }
    }

    method AssignUnsubscribe()
      requires Valid()
      modifies `unsubscribe
      ensures Valid() && Model() == SubscribeReturns(old(Model()))
    {
      unsubscribe := true;
    }

    method SendSnapshot(state: QueueState)
      requires Valid()
      modifies this
      ensures Valid() && Model() == Snapshot(old(Model()), state)
    {
      if state == QueueCompleted {
        WriteItem(Data(JobEvent(jobId, Completed, 100)));
        RunCleanup(SnapshotOutcome);
        return;
      }
      if state == QueueFailed {
        WriteItem(Data(JobEvent(jobId, Failed, 0)));
        RunCleanup(SnapshotOutcome);
        return;
      }
      WriteItem(Data(JobEvent(jobId, if state == QueueActive then Processing else Queued, fetchedProgress)));
    }

    method FinishCleanup()
      requires Valid()
      modifies `unsub, `ends
      ensures Valid() && Model() == UnsubscribeReturns(old(Model()))
    {
      unsub := Returned;
      ends := ends + 1;
    }

    method Tick()
      requires Valid()
      modifies `out
      ensures Valid() && Model() == KeepAliveTick(old(Model()))
    {
      if !closed {
        WriteItem(KeepAlive);
      }
    }
  }

  /**
   * The shared subscriber connection as an event emitter: one incoming message reaches every listener.
   * A handler that has been taken off stays listed here with `attached` false.
   */
  class Emitter {
    var listeners: seq<Handler>

    ghost predicate Valid()
      reads this, listeners
    {
      && (forall i, k :: 0 <= i < k < |listeners| ==> listeners[i] != listeners[k])
      && (forall i :: 0 <= i < |listeners| ==> listeners[i].Valid())
    }

    constructor ()
      ensures Valid() && listeners == []
    {
      listeners := [];
    }

    method On(h: Handler)
      requires Valid() && h.Valid() && h !in listeners
      modifies `listeners
      ensures Valid() && listeners == old(listeners) + [h]
    {
      listeners := listeners + [h];
    }

    method Emit(channel: string, payload: Payload)
      requires Valid()
      modifies listeners
      ensures Valid()
      ensures forall h :: h in listeners ==> h.Model() == OnMessage(old(h.Model()), channel, payload)
    {
      for i := 0 to |listeners|
        invariant Valid()
        invariant forall k :: 0 <= k < i ==>
          listeners[k].Model() == OnMessage(old(listeners[k].Model()), channel, payload)
        invariant forall k :: i <= k < |listeners| ==> listeners[k].Model() == old(listeners[k].Model())
      {
        listeners[i].Receive(channel, payload);
      }
    }
  }
}
