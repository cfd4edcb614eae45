/** The worker's job handler: failure classification, the retry decision, and what an attempt publishes. */
module Worker {
  import opened Wrappers
  import opened JobEvents

  datatype Failure =
    | MissingFile
    | InvalidImage
    | InvalidCsv
    | InvalidOptions
    | MalformedPayload
    | NoProcessor
    | OtherError

  predicate IsPermanentFailure(f: Failure) {
    f.MissingFile? || f.InvalidImage? || f.InvalidCsv? || f.InvalidOptions?
  }

  /** What the job's data makes of one attempt: the payload check, the registry lookup, then the processor. */
  datatype Attempt = Attempt(payloadParses: bool, operationKnown: bool, processor: Option<Failure>)

  function RunJob(a: Attempt): Option<Failure> {
    if !a.payloadParses then Some(MalformedPayload)
    else if !a.operationKnown then Some(NoProcessor)
    else a.processor
  }

  /** How the handler leaves: a returned result, or a throw that is marked unrecoverable or not. */
  datatype Exit = Returned | Threw(unrecoverable: bool)

  function RunJobWithRetryPolicy(a: Attempt): Exit {
    match RunJob(a)
    case None => Returned
    case Some(f) => Threw(IsPermanentFailure(f))
  }

  predicate LastAttempt(attempts: nat, made: nat) {
    made + 1 >= attempts
  }

  /** Whether the handler announces an outcome before it leaves. */
  predicate Announces(x: Exit, attempts: nat, made: nat) {
    x.Returned? || x.unrecoverable || LastAttempt(attempts, made)
  }

  /** The queue's own rule, applied after the handler has left. */
  predicate QueueRetries(x: Exit, attempts: nat, made: nat) {
    x.Threw? && !x.unrecoverable && made + 1 < attempts
  }

  function OutcomeOf(x: Exit): Phase {
    if x.Returned? then Completed else Failed
  }

  function StartEvent(jobId: JobId): JobEvent {
    JobEvent(jobId, Processing, 0)
  }

  function OutcomeEvent(jobId: JobId, p: Phase): JobEvent
    requires IsOutcome(p)
  {
    JobEvent(jobId, p, if p.Completed? then 100 else 0)
  }

  /** Everything the handler itself publishes in one attempt, in order. */
  function AttemptEvents(jobId: JobId, x: Exit, attempts: nat, made: nat): seq<JobEvent> {
    [StartEvent(jobId)]
    + if Announces(x, attempts, made) then [OutcomeEvent(jobId, OutcomeOf(x))] else []
  }

  /** Which of an attempt's commands Redis accepts; a refusal is swallowed and the handler goes on. */
  datatype Acceptance = Acceptance(start: bool, outcome: bool, count: bool)

  /** What reaches the channel of an attempt's events. */
  function Kept(events: seq<JobEvent>, redis: Acceptance): seq<JobEvent>
    requires events != []
  {
    (if redis.start then [events[0]] else []) + if redis.outcome then events[1..] else []
  }

  /** The worker process: what it has tried to publish, what was published, and the counters it bumps in Redis. */
  class Process {
    ghost var attempted: seq<JobEvent>
    var published: seq<JobEvent>
    var completedTotal: nat
    var failedTotal: nat

    constructor ()
      ensures attempted == published == [] && completedTotal == failedTotal == 0
    {
      attempted := [];
      published, completedTotal, failedTotal := [], 0, 0;
    }

    method Publish(e: JobEvent, accepted: bool)
      modifies `attempted, `published
      ensures attempted == old(attempted) + [e]
      ensures published == old(published) + if accepted then [e] else []
    {
      attempted := attempted + [e];
      if accepted {
        published := published + [e];
      }
    }

    /** The job handler. */
    method Handle(jobId: JobId, attempts: nat, made: nat, a: Attempt, redis: Acceptance) returns (x: Exit)
      modifies this
      ensures x == RunJobWithRetryPolicy(a)
      ensures attempted == old(attempted) + AttemptEvents(jobId, x, attempts, made)
      ensures published == old(published) + Kept(AttemptEvents(jobId, x, attempts, made), redis)
      ensures completedTotal == old(completedTotal) + if x.Returned? && redis.count then 1 else 0
      ensures failedTotal == old(failedTotal) + if x.Threw? && Announces(x, attempts, made) && redis.count then 1 else 0
    {
      Publish(StartEvent(jobId), redis.start);
      x := RunJobWithRetryPolicy(a);
      if x == Returned {
        Publish(JobEvent(jobId, Completed, 100), redis.outcome);
        if redis.count {
          completedTotal := completedTotal + 1;
        }
        return;
      }
      var permanent := x.unrecoverable;
      var lastAttempt := made + 1 >= attempts;
      if permanent || lastAttempt {
        Publish(JobEvent(jobId, Failed, 0), redis.outcome);
        if redis.count {
          failedTotal := failedTotal + 1;
        }
      }
    }

    /** The queue driving one job through this handler until it will not retry. */
    method RunToSettlement(jobId: JobId, attempts: nat, script: nat -> Attempt, redis: nat -> Acceptance) returns (final: Phase)
      modifies this
      ensures attempted == old(attempted) + JobEventsFrom(jobId, attempts, script, 0)
      ensures published == old(published) + AcceptedFrom(jobId, attempts, script, redis, 0)
      ensures final == OutcomeOf(RunJobWithRetryPolicy(script(SettlingAttempt(attempts, script))))
      ensures completedTotal == old(completedTotal) + if final.Completed? && redis(SettlingAttempt(attempts, script)).count then 1 else 0
      ensures failedTotal == old(failedTotal) + if final.Failed? && redis(SettlingAttempt(attempts, script)).count then 1 else 0
    {
      var made := 0;
      var x := Handle(jobId, attempts, made, script(made), redis(made));
      ghost var done := AttemptEvents(jobId, x, attempts, made);
      ghost var sent := Kept(done, redis(made));
      while QueueRetries(x, attempts, made)
        invariant x == RunJobWithRetryPolicy(script(made))
        invariant AllRetried(attempts, script, made)
        invariant attempted == old(attempted) + done && published == old(published) + sent
        invariant JobEventsFrom(jobId, attempts, script, 0) == done + Remaining(jobId, attempts, script, made)
        invariant AcceptedFrom(jobId, attempts, script, redis, 0) == sent + RemainingAccepted(jobId, attempts, script, redis, made)
        invariant completedTotal == old(completedTotal) + if x.Returned? && redis(made).count then 1 else 0
        invariant failedTotal == old(failedTotal) + if x.Threw? && Announces(x, attempts, made) && redis(made).count then 1 else 0
        decreases attempts - made
      {
        NextAttempt(jobId, attempts, script, redis, made, done, sent);
        made := made + 1;
        x := Handle(jobId, attempts, made, script(made), redis(made));
        done := done + AttemptEvents(jobId, x, attempts, made);
        sent := sent + Kept(AttemptEvents(jobId, x, attempts, made), redis(made));
      }
      assert Remaining(jobId, attempts, script, made) == [] && RemainingAccepted(jobId, attempts, script, redis, made) == [];
      SettlingAttemptIs(attempts, script, made);
      final := OutcomeOf(x);
    }
  }

  ghost predicate AllRetried(attempts: nat, script: nat -> Attempt, n: nat) {
    forall k :: 0 <= k < n ==> QueueRetries(RunJobWithRetryPolicy(script(k)), attempts, k)
  }

  /** What attempts after `made` publish. */
  function Remaining(jobId: JobId, attempts: nat, script: nat -> Attempt, made: nat): seq<JobEvent>
    decreases attempts - made, 0
  {
    if QueueRetries(RunJobWithRetryPolicy(script(made)), attempts, made)
    then JobEventsFrom(jobId, attempts, script, made + 1) else []
  }

  /** Everything the handlers of a job publish from attempt `made` on, for a script of attempt outcomes. */
  function JobEventsFrom(jobId: JobId, attempts: nat, script: nat -> Attempt, made: nat): seq<JobEvent>
    decreases attempts - made, 1
  {
    AttemptEvents(jobId, RunJobWithRetryPolicy(script(made)), attempts, made)
    + Remaining(jobId, attempts, script, made)
  }

  function RemainingAccepted(
    jobId: JobId, attempts: nat, script: nat -> Attempt, redis: nat -> Acceptance, made: nat): seq<JobEvent>
    decreases attempts - made, 0
  {
    if QueueRetries(RunJobWithRetryPolicy(script(made)), attempts, made)
    then AcceptedFrom(jobId, attempts, script, redis, made + 1) else []
  }

  /** What of those events reaches the channel. */
  function AcceptedFrom(
    jobId: JobId, attempts: nat, script: nat -> Attempt, redis: nat -> Acceptance, made: nat): seq<JobEvent>
    decreases attempts - made, 1
  {
    Kept(AttemptEvents(jobId, RunJobWithRetryPolicy(script(made)), attempts, made), redis(made))
    + RemainingAccepted(jobId, attempts, script, redis, made)
  }

  /** One more attempt moves its events from what remains to what is done. */
  lemma NextAttempt(
    jobId: JobId, attempts: nat, script: nat -> Attempt, redis: nat -> Acceptance, made: nat,
    done: seq<JobEvent>, sent: seq<JobEvent>)
    requires QueueRetries(RunJobWithRetryPolicy(script(made)), attempts, made)
    ensures var events := AttemptEvents(jobId, RunJobWithRetryPolicy(script(made + 1)), attempts, made + 1);
            && done + Remaining(jobId, attempts, script, made)
            == (done + events) + Remaining(jobId, attempts, script, made + 1)
            && sent + RemainingAccepted(jobId, attempts, script, redis, made)
            == (sent + Kept(events, redis(made + 1))) + RemainingAccepted(jobId, attempts, script, redis, made + 1)
  {
    var events := AttemptEvents(jobId, RunJobWithRetryPolicy(script(made + 1)), attempts, made + 1);
    Associates(done, events, Remaining(jobId, attempts, script, made + 1));
    Associates(sent, Kept(events, redis(made + 1)), RemainingAccepted(jobId, attempts, script, redis, made + 1));
  }

  lemma Associates<T>(a: seq<T>, b: seq<T>, c: seq<T>)
    ensures a + (b + c) == (a + b) + c
  {
  }

  /** An attempt settles the job by itself when it succeeds or fails permanently. */
  predicate Decisive(a: Attempt) {
    RunJob(a).None? || IsPermanentFailure(RunJob(a).value)
  }

  /** The first decisive attempt below the allowance, or the last one allowed. */
  function SettlingAttempt(attempts: nat, script: nat -> Attempt): (n: nat)
    ensures n < attempts || n == 0
    ensures Decisive(script(n)) || n + 1 >= attempts
    ensures forall k :: 0 <= k < n ==> !Decisive(script(k))
  {
    SettlingFrom(attempts, script, 0)
  }

  function SettlingFrom(attempts: nat, script: nat -> Attempt, from: nat): (n: nat)
    requires from < attempts || from == 0
    ensures from <= n && (n < attempts || n == 0)
    ensures Decisive(script(n)) || n + 1 >= attempts
    ensures forall k :: from <= k < n ==> !Decisive(script(k))
    decreases attempts - from
  {
    if Decisive(script(from)) || from + 1 >= attempts then from
    else SettlingFrom(attempts, script, from + 1)
  }

  lemma SettlingAttemptIs(attempts: nat, script: nat -> Attempt, n: nat)
    requires AllRetried(attempts, script, n)
    requires !QueueRetries(RunJobWithRetryPolicy(script(n)), attempts, n)
    ensures SettlingAttempt(attempts, script) == n
  {
    var m := SettlingAttempt(attempts, script);
    var atM, atN := RunJobWithRetryPolicy(script(m)), RunJobWithRetryPolicy(script(n));
    assert QueueRetries(atM, attempts, m) || m >= n;
    assert !Decisive(script(n)) || m <= n;
  }

  /** The handler announces exactly when the queue will not retry, whatever the attempt did. */
  lemma AnnouncesIffQueueWillNotRetry(a: Attempt, attempts: nat, made: nat)
    ensures var x := RunJobWithRetryPolicy(a);
            Announces(x, attempts, made) <==> !QueueRetries(x, attempts, made)
  {
  }

  function TerminalCount(events: seq<JobEvent>): nat {
    if events == [] then 0 else (if Terminal(events[0]) then 1 else 0) + TerminalCount(events[1..])
  }

  /**
   * The retry protocol: from attempt 0 to the settling one, each attempt publishes its start and only the
   * last publishes one outcome, which is the queue's final state and the last event of all.
   */
  lemma {:induction false} RetryProtocol(jobId: JobId, attempts: nat, script: nat -> Attempt, made: nat)
    requires made <= SettlingAttempt(attempts, script)
    ensures var n := SettlingAttempt(attempts, script);
            var events := JobEventsFrom(jobId, attempts, script, made);
            && |events| == n - made + 2
            && TerminalCount(events) == 1
            && (forall i :: 0 <= i <= n - made ==> events[i] == JobEvent(jobId, Processing, 0))
            && events[|events| - 1] == (if RunJob(script(n)).None? then JobEvent(jobId, Completed, 100) else JobEvent(jobId, Failed, 0))
    decreases attempts - made
  {
    var n := SettlingAttempt(attempts, script);
    var x := RunJobWithRetryPolicy(script(made));
    var first := AttemptEvents(jobId, x, attempts, made);
    if made < n {
      assert !Decisive(script(made));
      RetryProtocol(jobId, attempts, script, made + 1);
      var rest := JobEventsFrom(jobId, attempts, script, made + 1);
      assert first == [StartEvent(jobId)];
      TerminalCountCons(StartEvent(jobId), rest);
    } else {
      assert Announces(x, attempts, made) && !QueueRetries(x, attempts, made);
      var outcome := [OutcomeEvent(jobId, OutcomeOf(x))];
      assert JobEventsFrom(jobId, attempts, script, made) == [StartEvent(jobId)] + outcome;
      TerminalCountCons(StartEvent(jobId), outcome);
      TerminalCountCons(outcome[0], []);
    }
  }

  lemma TerminalCountCons(e: JobEvent, rest: seq<JobEvent>)
    ensures TerminalCount([e] + rest) == TerminalCount(rest) + if Terminal(e) then 1 else 0
  {
    assert ([e] + rest)[1..] == rest;
  }

  /** The start events Redis accepts from attempt `made` to attempt `n`. */
  function AcceptedStarts(jobId: JobId, redis: nat -> Acceptance, made: nat, n: nat): (r: seq<JobEvent>)
    requires made <= n
    ensures forall e :: e in r ==> e == StartEvent(jobId)
    decreases n - made
  {
    (if redis(made).start then [StartEvent(jobId)] else [])
    + if made < n then AcceptedStarts(jobId, redis, made + 1, n) else []
  }

  /** What is published of it: accepted starts, and then the one outcome exactly if Redis accepted it. */
  lemma {:induction false} OnlyTheOutcomeSettles(
    jobId: JobId, attempts: nat, script: nat -> Attempt, redis: nat -> Acceptance, made: nat)
    requires made <= SettlingAttempt(attempts, script)
    ensures var n := SettlingAttempt(attempts, script);
            AcceptedFrom(jobId, attempts, script, redis, made)
            == AcceptedStarts(jobId, redis, made, n)
               + if redis(n).outcome then [OutcomeEvent(jobId, OutcomeOf(RunJobWithRetryPolicy(script(n))))] else []
    decreases attempts - made
  {
    var n := SettlingAttempt(attempts, script);
    if made < n {
      assert !Decisive(script(made));
      OnlyTheOutcomeSettles(jobId, attempts, script, redis, made + 1);
      KeptOfRetried(jobId, RunJobWithRetryPolicy(script(made)), attempts, made, redis(made));
      Associates(
        if redis(made).start then [StartEvent(jobId)] else [], AcceptedStarts(jobId, redis, made + 1, n),
        if redis(n).outcome then [OutcomeEvent(jobId, OutcomeOf(RunJobWithRetryPolicy(script(n))))] else []);
    } else {
      KeptOfLast(jobId, RunJobWithRetryPolicy(script(made)), attempts, made, redis(made));
    }
  }

  lemma KeptOfRetried(jobId: JobId, x: Exit, attempts: nat, made: nat, redis: Acceptance)
    requires QueueRetries(x, attempts, made)
    ensures Kept(AttemptEvents(jobId, x, attempts, made), redis) == if redis.start then [StartEvent(jobId)] else []
  {
  }

  lemma KeptOfLast(jobId: JobId, x: Exit, attempts: nat, made: nat, redis: Acceptance)
    requires !QueueRetries(x, attempts, made)
    ensures Kept(AttemptEvents(jobId, x, attempts, made), redis)
         == (if redis.start then [StartEvent(jobId)] else [])
            + if redis.outcome then [OutcomeEvent(jobId, OutcomeOf(x))] else []
  {
    assert AttemptEvents(jobId, x, attempts, made)[1..] == [OutcomeEvent(jobId, OutcomeOf(x))];
  }

  /** Every attempt of a job fails, or succeeds, in one way. */
  function Always(a: Attempt): nat -> Attempt {
    (_: nat) => a
  }

  /**
   * Which failures are tried again: a missing file, bytes that are no image or no CSV, and unusable options
   * take one attempt; a payload that does not parse, an operation without a processor and anything else take
   * all that are allowed; a success takes one.
   */
  lemma WhatIsRetried(a: Attempt, attempts: nat)
    ensures var tries := SettlingAttempt(attempts, Always(a)) + 1;
            var all := if attempts == 0 then 1 else attempts;
            if !a.payloadParses || !a.operationKnown then tries == all
            else if a.processor.None? then tries == 1
            else if a.processor.value.MissingFile? || a.processor.value.InvalidImage?
                    || a.processor.value.InvalidCsv? || a.processor.value.InvalidOptions? then tries == 1
            else tries == all
  {
    var n := SettlingAttempt(attempts, Always(a));
    assert Always(a)(n) == a && Always(a)(0) == a;
  }

  /** At most `attempts` attempts run, and a permanent first failure uses exactly one. */
  lemma AttemptBound(attempts: nat, script: nat -> Attempt)
    ensures SettlingAttempt(attempts, script) + 1 <= if attempts == 0 then 1 else attempts
    ensures Decisive(script(0)) ==> SettlingAttempt(attempts, script) == 0
    ensures OutcomeOf(RunJobWithRetryPolicy(script(SettlingAttempt(attempts, script)))) == Completed
      <==> exists k: nat ::
        && (k < attempts || k == 0)
        && RunJob(script(k)).None?
        && forall i :: 0 <= i < k ==> !Decisive(script(i))
  {
    var n := SettlingAttempt(attempts, script);
    if k: nat :| (k < attempts || k == 0) && RunJob(script(k)).None? && forall i :: 0 <= i < k ==> !Decisive(script(i)) {
      var atN, atK := script(n), script(k);
      assert !Decisive(atN) || k <= n;
      assert !Decisive(atK) || n <= k;
    }
  }
}
