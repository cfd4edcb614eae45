/** The event vocabulary the worker, the API and the browser share, and the pub/sub channel of a job. */
module JobEvents {
  type JobId = string

  datatype Phase = Queued | Processing | Completed | Failed

  /** `result`, `error` and `operation` ride along unread by the protocol and are not modelled. */
  datatype JobEvent = JobEvent(jobId: JobId, state: Phase, progress: int)

  /** What arrives on a channel: text that is not JSON of an event, or an event still to be range-checked. */
  datatype Payload = Malformed | Parsed(event: JobEvent)

  predicate IsOutcome(p: Phase) {
    p.Completed? || p.Failed?
  }

  predicate Terminal(e: JobEvent) {
    IsOutcome(e.state)
  }

  predicate SchemaValid(e: JobEvent) {
    0 <= e.progress <= 100
  }

  const CHANNEL_PREFIX := "job-events:"

  function ChannelFor(jobId: JobId): string {
    CHANNEL_PREFIX + jobId
  }

  /** Two jobs never share a channel, so the handler's string comparison selects exactly its own job. */
  lemma ChannelForIsInjective(a: JobId, b: JobId)
    ensures ChannelFor(a) == ChannelFor(b) <==> a == b
  {
    assert ChannelFor(a)[|CHANNEL_PREFIX|..] == a;
    assert ChannelFor(b)[|CHANNEL_PREFIX|..] == b;
  }
}
