/** The browser's hook: what is on screen for a job as messages, errors and job changes arrive. */
module Browser {
  import opened Wrappers
  import opened JobEvents
  import opened EventStream
  import opened Protocol
  import opened ProtocolTheorems

  datatype Json = Null | Text(s: string) | Scalar | Array(items: seq<Json>) | Object(fields: map<string, Json>)

  function StringsOf(items: seq<Json>): seq<string> {
    if items == [] then []
    else (if items[0].Text? then [items[0].s] else []) + StringsOf(items[1..])
  }

  function OutputsFrom(result: Json): seq<string> {
    if result.Object? && "outputs" in result.fields && result.fields["outputs"].Array?
    then StringsOf(result.fields["outputs"].items) else []
  }

  /** The keys shown are exactly the string entries of the result's output list, and an entry's place is kept. */
  lemma {:induction false} OutputsAreStrings(items: seq<Json>, s: string)
    ensures s in StringsOf(items) <==> Text(s) in items
  {
    if items != [] {
      OutputsAreStrings(items[1..], s);
      assert items == [items[0]] + items[1..];
    }
  }

  lemma {:induction false} OutputsKeepOrder(items: seq<Json>, more: seq<Json>)
    ensures StringsOf(items + more) == StringsOf(items) + StringsOf(more)
  {
    if items == [] {
      assert items + more == more;
    } else {
      OutputsKeepOrder(items[1..], more);
      assert (items + more)[1..] == items[1..] + more;
      var first, rest := if items[0].Text? then [items[0].s] else [], StringsOf(items[1..]);
      assert first + (rest + StringsOf(more)) == (first + rest) + StringsOf(more);
    }
  }

  /** A result with such an output list. */
  function Listing(items: seq<Json>): Json {
    Object(map["outputs" := Array(items)])
  }

  /** What is taken from a result: nothing unless it lists outputs, and then its string entries in their places. */
  lemma {:induction false} OutputsExactly(result: Json, items: seq<Json>, more: seq<Json>, k: string)
    ensures !result.Object? || "outputs" !in result.fields || !result.fields["outputs"].Array? ==> OutputsFrom(result) == []
    ensures result.Object? && "outputs" in result.fields && result.fields["outputs"] == Array(items) ==>
      && OutputsFrom(result) == OutputsFrom(Listing(items))
      && (k in OutputsFrom(result) <==> Text(k) in items)
    ensures OutputsFrom(Listing(items + more)) == OutputsFrom(Listing(items)) + OutputsFrom(Listing(more))
    ensures OutputsFrom(Listing([])) == [] && OutputsFrom(Listing([Text(k)])) == [k]
  {
    OutputsAreStrings(items, k);
    OutputsKeepOrder(items, more);
    assert StringsOf([Text(k)]) == [k];
  }

  datatype Shown = Idle | InPhase(phase: Phase)

  datatype Display = Display(shown: Shown, progress: int, outputs: seq<string>, error: Option<string>)

  const IDLE := Display(Idle, 0, [], None)
  const FRESH := Display(InPhase(Queued), 0, [], None)
  const MOUNTED := View(IDLE, false)
  const LOST := "Lost connection to the server"

  /** A server-sent message: its text may not be JSON, or may not be an event. */
  datatype Message = NotJson | NotAnEvent | Event(event: JobEvent, result: Json, error: Option<string>)

  datatype Input =
    | JobChanges(jobId: Option<JobId>)
    | MessageArrives(message: Message)
    | ErrorFires(closed: bool)

  /** `open` says the event source exists and has not been closed; a closed source dispatches nothing. */
  datatype View = View(display: Display, open: bool)

  predicate ShowsOutcome(d: Display) {
    d.shown.InPhase? && IsOutcome(d.shown.phase)
  }

  function DisplayOf(m: Message): Display
    requires m.Event?
  {
    Display(InPhase(m.event.state), m.event.progress, OutputsFrom(m.result), m.error)
  }

  function React(v: View, i: Input): View {
    match i
    case JobChanges(jobId) => if jobId.None? then View(IDLE, false) else View(FRESH, true)
    case MessageArrives(m) =>
      if v.open && m.Event? && SchemaValid(m.event)
      then View(DisplayOf(m), !Terminal(m.event))
      else v
    case ErrorFires(closed) =>
      if !v.open || !closed then v
      else View(if ShowsOutcome(v.display) then v.display else v.display.(error := Some(LOST)), false)
  }

  function Watch(v: View, inputs: seq<Input>): View {
    if inputs == [] then v else React(Watch(v, inputs[..|inputs| - 1]), inputs[|inputs| - 1])
  }

  class Hook {
    var display: Display
    var open: bool

    constructor ()
      ensures View(display, open) == MOUNTED
    {
      display, open := IDLE, false;
    }

    method Effect(jobId: Option<JobId>)
      modifies this
      ensures View(display, open) == React(old(View(display, open)), JobChanges(jobId))
    {
      open := false;
      if jobId.None? {
        display := IDLE;
        return;
      }
      display := Display(InPhase(Queued), 0, [], None);
      open := true;
    }

    method OnMessage(m: Message)
      modifies this
      ensures View(display, open) == React(old(View(display, open)), MessageArrives(m))
    {
      if !open || !m.Event? || !SchemaValid(m.event) {
        return;
      }
      display := Display(InPhase(m.event.state), m.event.progress, OutputsFrom(m.result), m.error);
      if m.event.state == Completed || m.event.state == Failed {
        open := false;
      }
    }

    method OnError(closed: bool)
      modifies this
      ensures View(display, open) == React(old(View(display, open)), ErrorFires(closed))
    {
      if !open || !closed {
        return;
      }
      open := false;
      if !ShowsOutcome(display) {
        display := display.(error := Some(LOST));
      }
    }
  }

  /** The job the hook is watching after some inputs. */
  function CurrentJob(inputs: seq<Input>): Option<JobId> {
    if inputs == [] then None
    else
      match inputs[|inputs| - 1]
      case JobChanges(jobId) => jobId
      case _ => CurrentJob(inputs[..|inputs| - 1])
  }

  /** Nothing but another job replaces a displayed outcome: not a late snapshot, an error, or a reconnect. */
  lemma {:induction false} OutcomeIsAbsorbing(inputs: seq<Input>, n: nat)
    requires n <= |inputs|
    requires forall i :: n <= i < |inputs| ==> !inputs[i].JobChanges?
    requires ShowsOutcome(Watch(MOUNTED, inputs[..n]).display)
    ensures Watch(MOUNTED, inputs) == Watch(MOUNTED, inputs[..n]) && CurrentJob(inputs) == CurrentJob(inputs[..n])
    decreases |inputs| - n
  {
    ClosedWithOutcome(inputs[..n]);
    if n < |inputs| {
      assert inputs[..n + 1][..n] == inputs[..n];
      OutcomeIsAbsorbing(inputs, n + 1);
    } else {
      assert inputs[..n] == inputs;
    }
  }

  lemma {:induction false} ClosedWithOutcome(inputs: seq<Input>)
    ensures ShowsOutcome(Watch(MOUNTED, inputs).display) ==> !Watch(MOUNTED, inputs).open
    ensures Watch(MOUNTED, inputs).display.shown != Idle <==> CurrentJob(inputs).Some?
    ensures Watch(MOUNTED, inputs).open ==> CurrentJob(inputs).Some?
  {
    if inputs != [] {
      ClosedWithOutcome(inputs[..|inputs| - 1]);
    }
  }

  /** What has happened since the last change of job. */
  function Session(inputs: seq<Input>): seq<Input> {
    if inputs == [] || inputs[|inputs| - 1].JobChanges? then []
    else Session(inputs[..|inputs| - 1]) + [inputs[|inputs| - 1]]
  }

  /** A message that is an event with its progress in range. */
  predicate ValidMessage(i: Input) {
    i.MessageArrives? && i.message.Event? && 0 <= i.message.event.progress <= 100
  }

  /** A valid outcome closes the source, and so does an error that finds it closed. */
  predicate Closes(i: Input) {
    || i == ErrorFires(true)
    || (ValidMessage(i) && (i.message.event.state == Completed || i.message.event.state == Failed))
  }

  predicate StillOpen(session: seq<Input>) {
    forall i :: 0 <= i < |session| ==> !Closes(session[i])
  }

  /** The messages dispatched: the valid ones up to and with the one that closes the source. */
  function Dispatched(session: seq<Input>): seq<Message> {
    if session == [] then []
    else
      var front, last := session[..|session| - 1], session[|session| - 1];
      if StillOpen(front) && ValidMessage(last) then Dispatched(front) + [last.message] else Dispatched(front)
  }

  /** The source was found closed before an outcome came. */
  predicate ConnectionLost(session: seq<Input>) {
    exists i :: 0 <= i < |session| && LostAt(session, i)
  }

  predicate LostAt(session: seq<Input>, i: nat)
    requires i < |session|
  {
    session[i] == ErrorFires(true) && StillOpen(session[..i])
  }

  /** A display, field by field: of the last message dispatched, or fresh if there was none. */
  ghost predicate Displays(d: Display, seen: seq<Message>, lost: bool)
    requires forall m :: m in seen ==> m.Event?
  {
    if seen == [] then
      && d.shown == InPhase(Queued) && d.progress == 0 && d.outputs == []
      && d.error == if lost then Some(LOST) else None
    else
      var m := seen[|seen| - 1];
      && d.shown == InPhase(m.event.state) && d.progress == m.event.progress && d.outputs == OutputsFrom(m.result)
      && d.error == if lost then Some(LOST) else m.error
  }

  lemma {:induction false} DispatchedAreEvents(session: seq<Input>)
    ensures forall m :: m in Dispatched(session) ==> m.Event?
    ensures Dispatched(session) != [] && ShowsOutcome(DisplayOf(Dispatched(session)[|Dispatched(session)| - 1])) ==> !StillOpen(session)
  {
    if session != [] {
      var front, last := session[..|session| - 1], session[|session| - 1];
      DispatchedAreEvents(front);
      if StillOpen(front) && ValidMessage(last) {
        assert session[|session| - 1] == last;
      } else if !StillOpen(front) {
        var i :| 0 <= i < |front| && Closes(front[i]);
        assert session[i] == front[i];
      }
    }
  }

  lemma StillOpenSnoc(front: seq<Input>, last: Input)
    ensures StillOpen(front + [last]) <==> StillOpen(front) && !Closes(last)
  {
    var all := front + [last];
    assert all[|front|] == last && forall i :: 0 <= i < |front| ==> all[i] == front[i];
  }

  lemma ConnectionLostSnoc(front: seq<Input>, last: Input)
    ensures ConnectionLost(front + [last]) <==> ConnectionLost(front) || (StillOpen(front) && last == ErrorFires(true))
  {
    var all := front + [last];
    assert all[..|front|] == front && all[|front|] == last;
    assert forall i :: 0 <= i < |front| ==> all[i] == front[i] && all[..i] == front[..i];
    assert forall i :: 0 <= i < |front| ==> LostAt(all, i) == LostAt(front, i);
    assert LostAt(all, |front|) <==> StillOpen(front) && last == ErrorFires(true);
  }

  /** The page shows what the session's messages say, and the source is open while nothing has closed it. */
  ghost predicate Follows(v: View, session: seq<Input>) {
    && (forall m :: m in Dispatched(session) ==> m.Event?)
    && Displays(v.display, Dispatched(session), ConnectionLost(session))
    && (v.open <==> StillOpen(session))
  }

  /**
   * What is on the page, for every history: idle without a job; with one, the last valid message before the
   * source closed or the fresh display, and the loss of the connection if that is what closed it.
   */
  lemma {:induction false} ShowsTheLastMessage(inputs: seq<Input>)
    ensures var v := Watch(MOUNTED, inputs);
            if CurrentJob(inputs).None? then v.display == IDLE && !v.open else Follows(v, Session(inputs))
  {
    if inputs != [] {
      var front, last := inputs[..|inputs| - 1], inputs[|inputs| - 1];
      ShowsTheLastMessage(front);
      if !last.JobChanges? && CurrentJob(front).Some? {
        InputFollows(Watch(MOUNTED, front), Session(front), last);
      }
    }
  }

  /** One more input of the session. */
  lemma InputFollows(v: View, session: seq<Input>, last: Input)
    requires !last.JobChanges? && Follows(v, session)
    ensures Follows(React(v, last), session + [last])
  {
    StillOpenSnoc(session, last);
    ConnectionLostSnoc(session, last);
    if StillOpen(session) {
      if ValidMessage(last) {
        MessageShows(v, last.message, Dispatched(session));
      } else if last == ErrorFires(true) {
        OpenShowsNoOutcome(v, session);
      }
    }
  }

  lemma MessageShows(v: View, m: Message, seen: seq<Message>)
    requires v.open && ValidMessage(MessageArrives(m)) && forall k :: k in seen ==> k.Event?
    ensures Displays(React(v, MessageArrives(m)).display, seen + [m], false)
    ensures React(v, MessageArrives(m)).open <==> !Closes(MessageArrives(m))
  {
  }

  lemma OpenShowsNoOutcome(v: View, session: seq<Input>)
    requires Follows(v, session) && StillOpen(session)
    ensures !ShowsOutcome(v.display)
  {
    DispatchedAreEvents(session);
  }

  /** The first valid outcome of a session is displayed, and stays until the job changes. */
  lemma FirstOutcomeIsDisplayed(inputs: seq<Input>, m: Message, more: seq<Input>)
    requires CurrentJob(inputs).Some? && StillOpen(Session(inputs))
    requires ValidMessage(MessageArrives(m)) && (m.event.state == Completed || m.event.state == Failed)
    requires forall i :: 0 <= i < |more| ==> !more[i].JobChanges?
    ensures var d := Watch(MOUNTED, inputs + [MessageArrives(m)] + more).display;
            && d.shown == InPhase(m.event.state) && d.progress == m.event.progress
            && d.outputs == OutputsFrom(m.result) && d.error == m.error
  {
    var shown := inputs + [MessageArrives(m)];
    ShowsTheLastMessage(inputs);
    assert shown[..|inputs|] == inputs;
    assert (shown + more)[..|shown|] == shown;
    OutcomeIsAbsorbing(shown + more, |shown|);
  }

  /**
   * Messages come from streams of the job being watched when they arrive: any connections, cut anywhere,
   * interleaved with errors and changes of job in any way.
   */
  ghost predicate FedBy(s: State, inputs: seq<Input>) {
    forall i :: 0 <= i < |inputs| && inputs[i].MessageArrives? && inputs[i].message.Event? ==>
      CurrentJob(inputs[..i]).Some? ==> WrittenFor(s, CurrentJob(inputs[..i]).value, inputs[i].message.event)
  }

  ghost predicate WrittenFor(s: State, jobId: JobId, e: JobEvent) {
    exists w :: w in s.conns && s.conns[w].stream.jobId == jobId && Data(e) in s.conns[w].stream.out
  }

  /** The display's outcome was written by some connection of the job being watched. */
  lemma {:induction false} DisplayedWasWritten(s: State, inputs: seq<Input>) returns (w: WatcherId, e: JobEvent)
    requires FedBy(s, inputs)
    requires ShowsOutcome(Watch(MOUNTED, inputs).display)
    ensures CurrentJob(inputs).Some?
    ensures WroteOutcome(s, w, e) && s.conns[w].stream.jobId == CurrentJob(inputs).value
    ensures e.state == Watch(MOUNTED, inputs).display.shown.phase
  {
    var last := |inputs| - 1;
    var front := inputs[..last];
    var before := Watch(MOUNTED, front);
    assert forall i :: 0 <= i < last ==> front[i] == inputs[i] && front[..i] == inputs[..i];
    ClosedWithOutcome(front);
    if ShowsOutcome(before.display) {
      w, e := DisplayedWasWritten(s, front);
    } else {
      e := inputs[last].message.event;
      assert WrittenFor(s, CurrentJob(front).value, e);
      w :| w in s.conns && s.conns[w].stream.jobId == CurrentJob(front).value && Data(e) in s.conns[w].stream.out;
    }
  }

  /**
   * End to end, over any changes of job: an outcome on screen is the one announced for the job being
   * watched, and the queue's final state once that job has settled.
   */
  lemma DisplayAgreesWithQueue(s: State, inputs: seq<Input>)
    requires Reachable(s) && FedBy(s, inputs)
    requires ShowsOutcome(Watch(MOUNTED, inputs).display)
    ensures CurrentJob(inputs).Some? && CurrentJob(inputs).value in s.jobs
    ensures var job := s.jobs[CurrentJob(inputs).value];
            && job.announced == Some(Watch(MOUNTED, inputs).display.shown.phase)
            && (job.final.Some? ==> job.final == job.announced)
  {
    var w, e := DisplayedWasWritten(s, inputs);
    Agreement(s, w, e);
  }
}
