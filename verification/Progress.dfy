/** Forwarding progress: the per-worker high-water filter, and when a job's published progress may go down. */
module Progress {
  import opened Wrappers
  import opened JobEvents
  import opened Worker

  type HighWater = map<JobId, int>

  function Mark(high: HighWater, id: JobId): int {
    if id in high then high[id] else 0
  }

  /** A progress report that is not a number counts as zero. */
  function ValueOf(reported: Option<int>): int {
    if reported.Some? then reported.value else 0
  }

  /** The worker's event listeners: `highWater` and what the progress listener has published. */
  class Listener {
    var highWater: HighWater
    var published: seq<JobEvent>

    ghost function Model(): (HighWater, seq<JobEvent>)
      reads this
    {
      (highWater, published)
    }

    constructor ()
      ensures Model() == (map[], [])
    {
      highWater, published := map[], [];
    }

    method OnProgress(id: JobId, reported: Option<int>)
      modifies this
      ensures Model() == AfterCall(old(Model()), Progressed(id, reported))
    {
      var value := if reported.Some? then reported.value else 0;
      var previous := if id in highWater then highWater[id] else 0;
      if value < previous {
        return;
      }
      highWater := highWater[id := value];
      published := published + [JobEvent(id, Processing, value)];
    }

    method OnCompleted(id: JobId)
      modifies `highWater
      ensures Model() == AfterCall(old(Model()), JobCompleted(id))
    {
      highWater := highWater - {id};
    }
  }

  datatype Call = Progressed(id: JobId, reported: Option<int>) | JobCompleted(id: JobId)

  function AfterCall(m: (HighWater, seq<JobEvent>), call: Call): (HighWater, seq<JobEvent>) {
    match call
    case Progressed(id, reported) =>
      var v := ValueOf(reported);
      if v < Mark(m.0, id) then m else (m.0[id := v], m.1 + [JobEvent(id, Processing, v)])
    case JobCompleted(id) => (m.0 - {id}, m.1)
  }

  function AfterCalls(calls: seq<Call>): (HighWater, seq<JobEvent>) {
    if calls == [] then (map[], [])
    else AfterCall(AfterCalls(calls[..|calls| - 1]), calls[|calls| - 1])
  }

  /** Position just after the job's last completion. */
  function SinceCompletion(calls: seq<Call>, id: JobId): (n: nat)
    ensures n <= |calls|
  {
    if calls == [] then 0
    else if calls[|calls| - 1] == JobCompleted(id) then |calls|
    else SinceCompletion(calls[..|calls| - 1], id)
  }

  /** The values reported for a job by some calls. */
  function Reported(calls: seq<Call>, id: JobId): seq<int> {
    if calls == [] then []
    else
      var front := Reported(calls[..|calls| - 1], id);
      match calls[|calls| - 1]
      case Progressed(j, reported) =>
        if j == id then front + [if reported.Some? then reported.value else 0] else front
      case JobCompleted(_) => front
  }

  /** The non-negative values no earlier value exceeds. */
  ghost function WeakMaxima(values: seq<int>): seq<int> {
    if values == [] then []
    else
      var last := values[|values| - 1];
      var front := WeakMaxima(values[..|values| - 1]);
      if 0 <= last && forall k :: 0 <= k < |values| - 1 ==> values[k] <= last then front + [last] else front
  }

  function ProgressFor(events: seq<JobEvent>, id: JobId): seq<int> {
    if events == [] then []
    else
      var front := ProgressFor(events[..|events| - 1], id);
      if events[|events| - 1].jobId == id then front + [events[|events| - 1].progress] else front
  }

  lemma ReportedSnoc(calls: seq<Call>, call: Call, id: JobId)
    ensures Reported(calls + [call], id)
         == Reported(calls, id) + if call.Progressed? && call.id == id then [ValueOf(call.reported)] else []
  {
    assert (calls + [call])[..|calls|] == calls;
  }

  lemma MaximaSnoc(values: seq<int>, v: int, mark: int)
    requires IsMark(mark, values)
    ensures WeakMaxima(values + [v]) == WeakMaxima(values) + if mark <= v then [v] else []
    ensures IsMark(if mark <= v then v else mark, values + [v])
  {
    var all := values + [v];
    assert all[..|values|] == values && all[|values|] == v;
    assert forall k :: 0 <= k < |values| ==> all[k] == values[k];
    if mark in values {
      var k :| 0 <= k < |values| && values[k] == mark;
      assert all[k] == mark;
    }
  }

  /** The greatest of zero and the values. */
  ghost predicate IsMark(mark: int, values: seq<int>) {
    && 0 <= mark
    && (forall k :: 0 <= k < |values| ==> values[k] <= mark)
    && (mark == 0 || mark in values)
  }

  lemma ProgressForSnoc(events: seq<JobEvent>, e: JobEvent, id: JobId)
    ensures ProgressFor(events + [e], id) == ProgressFor(events, id) + if e.jobId == id then [e.progress] else []
  {
    assert (events + [e])[..|events|] == events;
  }

  /** One call, as one job sees it. */
  lemma CallSeenBy(m: (HighWater, seq<JobEvent>), call: Call, id: JobId)
    ensures var t := AfterCall(m, call);
            var raises := call.Progressed? && call.id == id && Mark(m.0, id) <= ValueOf(call.reported);
            && ProgressFor(t.1, id) == ProgressFor(m.1, id) + (if raises then [ValueOf(call.reported)] else [])
            && Mark(t.0, id) == if raises then ValueOf(call.reported)
                                else if call == JobCompleted(id) then 0 else Mark(m.0, id)
  {
    if call.Progressed? {
      ProgressForSnoc(m.1, JobEvent(call.id, Processing, ValueOf(call.reported)), id);
    }
  }

  /** The listener's state for a job: what it published before the values came in, and since. */
  ghost predicate Tracks(m: (HighWater, seq<JobEvent>), id: JobId, before: seq<int>, values: seq<int>) {
    && ProgressFor(m.1, id) == before + WeakMaxima(values)
    && IsMark(Mark(m.0, id), values)
  }

  lemma TracksStep(m: (HighWater, seq<JobEvent>), call: Call, id: JobId, before: seq<int>, values: seq<int>)
    requires Tracks(m, id, before, values) && call != JobCompleted(id)
    ensures Tracks(AfterCall(m, call), id, before,
                   values + if call.Progressed? && call.id == id then [ValueOf(call.reported)] else [])
  {
    CallSeenBy(m, call, id);
    if call.Progressed? && call.id == id {
      MaximaSnoc(values, ValueOf(call.reported), Mark(m.0, id));
    } else {
      assert values + [] == values;
    }
  }

  /**
   * What the listener publishes for a job since its last completion is the weak prefix maxima of what was
   * reported since then; what it published before is untouched.
   */
  lemma {:induction false} PublishesWeakMaxima(calls: seq<Call>, id: JobId)
    ensures var n := SinceCompletion(calls, id);
            Tracks(AfterCalls(calls), id, ProgressFor(AfterCalls(calls[..n]).1, id), Reported(calls[n..], id))
  {
    var n := SinceCompletion(calls, id);
    if n == |calls| {
      JustCompleted(calls, id);
    } else {
      var front, call := calls[..|calls| - 1], calls[|calls| - 1];
      PublishesWeakMaxima(front, id);
      assert front[..n] == calls[..n] && calls[n..] == front[n..] + [call];
      ReportedSnoc(front[n..], call, id);
      TracksStep(AfterCalls(front), call, id, ProgressFor(AfterCalls(calls[..n]).1, id), Reported(front[n..], id));
    }
  }

  lemma JustCompleted(calls: seq<Call>, id: JobId)
    requires SinceCompletion(calls, id) == |calls|
    ensures Tracks(AfterCalls(calls), id, ProgressFor(AfterCalls(calls[..|calls|]).1, id), Reported(calls[|calls|..], id))
  {
    assert calls[..|calls|] == calls && calls[|calls|..] == [];
    if calls != [] {
      CallSeenBy(AfterCalls(calls[..|calls| - 1]), calls[|calls| - 1], id);
    }
  }

  /** All it publishes are progress events. */
  lemma {:induction false} PublishesProcessing(calls: seq<Call>)
    ensures forall e :: e in AfterCalls(calls).1 ==> e.state == Processing
  {
    if calls != [] {
      PublishesProcessing(calls[..|calls| - 1]);
    }
  }

  // Many workers, many jobs, retries on any worker.

  type WorkerId = nat

  datatype Kind = AttemptStart | Report | Outcome

  datatype Publication = Publication(kind: Kind, event: JobEvent)

  /**
   * `heard` says which worker ran a job's latest attempt: updates it did not wait for may still be heard
   * there after the attempt has failed, until the next one starts.
   */
  datatype Fleet = Fleet(
    marks: map<WorkerId, HighWater>,
    heard: map<JobId, WorkerId>,
    running: set<JobId>,
    failed: set<JobId>,
    succeeded: set<JobId>,
    published: seq<Publication>)

  datatype Move =
    | Start(id: JobId, worker: WorkerId)
    | Update(id: JobId, reported: Option<int>)
    | FailAttempt(id: JobId, last: bool)
    | Succeed(id: JobId)
    | CompletedEvent(id: JobId, worker: WorkerId)

  function MarksOf(f: Fleet, w: WorkerId): HighWater {
    if w in f.marks then f.marks[w] else map[]
  }

  function After(f: Fleet, m: Move): Fleet {
    match m
    case Start(id, w) =>
      if id in f.running + f.failed + f.succeeded then f
      else f.(heard := f.heard[id := w], running := f.running + {id},
              published := f.published + [Publication(AttemptStart, StartEvent(id))])
    case Update(id, reported) =>
      if id !in f.heard || ValueOf(reported) > 100 then f
      else
        var w := f.heard[id];
        var v := ValueOf(reported);
        var before := MarksOf(f, w);
        if v < Mark(before, id) then f
        else f.(marks := f.marks[w := AfterCall((before, []), Progressed(id, reported)).0],
                published := f.published + [Publication(Report, JobEvent(id, Processing, v))])
    case FailAttempt(id, last) =>
      if id !in f.running then f
      else if !last then f.(running := f.running - {id})
      else f.(running := f.running - {id}, failed := f.failed + {id},
              published := f.published + [Publication(Outcome, OutcomeEvent(id, Failed))])
    case Succeed(id) =>
      if id !in f.running then f
      else f.(heard := f.heard - {id}, running := f.running - {id}, succeeded := f.succeeded + {id},
              published := f.published + [Publication(Outcome, OutcomeEvent(id, Completed))])
    case CompletedEvent(id, w) =>
      if id !in f.succeeded then f
      else f.(marks := f.marks[w := AfterCall((MarksOf(f, w), []), JobCompleted(id)).0])
  }

  function Played(moves: seq<Move>): Fleet {
    if moves == [] then Fleet(map[], map[], {}, {}, {}, [])
    else After(Played(moves[..|moves| - 1]), moves[|moves| - 1])
  }

  /** The progress a job last showed. */
  function Showing(published: seq<Publication>, id: JobId): Option<int> {
    if published == [] then None
    else if published[|published| - 1].event.jobId == id then Some(published[|published| - 1].event.progress)
    else Showing(published[..|published| - 1], id)
  }

  /** The n-th publication lowers the progress its job was showing. */
  predicate Descends(published: seq<Publication>, n: nat)
    requires n < |published|
  {
    var shown := Showing(published[..n], published[n].event.jobId);
    shown.Some? && published[n].event.progress < shown.value
  }

  /** A job whose updates can be heard shows zero, or the mark of the worker they are heard at. */
  ghost predicate ShownWell(f: Fleet, id: JobId)
    requires id in f.heard
  {
    var shown := Showing(f.published, id);
    && shown.Some? && 0 <= shown.value <= 100
    && (shown.value == 0 || shown.value == Mark(MarksOf(f, f.heard[id]), id))
  }

  ghost predicate FleetInv(f: Fleet) {
    && f.heard.Keys !! f.succeeded
    && f.running <= f.heard.Keys
    && (forall id :: id in f.heard ==> ShownWell(f, id))
    && (forall w, id :: 0 <= Mark(MarksOf(f, w), id) <= 100)
    && (forall n: nat :: n < |f.published| ==> PublishedWell(f.published, n))
  }

  predicate MayDescend(p: Publication) {
    p.kind.AttemptStart? || (p.kind.Outcome? && p.event.state.Failed?)
  }

  /** What the n-th publication may be: in range, zero where it may go down, and not down anywhere else. */
  predicate PublishedWell(published: seq<Publication>, n: nat)
    requires n < |published|
  {
    && SchemaValid(published[n].event)
    && (MayDescend(published[n]) ==> published[n].event.progress == 0)
    && (Descends(published, n) ==> MayDescend(published[n]))
  }

  lemma PublishKeeps(published: seq<Publication>, p: Publication)
    requires forall n: nat :: n < |published| ==> PublishedWell(published, n)
    requires SchemaValid(p.event) && (MayDescend(p) ==> p.event.progress == 0)
    requires MayDescend(p) || Showing(published, p.event.jobId).None? || Showing(published, p.event.jobId).value <= p.event.progress
    ensures forall n: nat :: n < |published + [p]| ==> PublishedWell(published + [p], n)
    ensures forall id :: Showing(published + [p], id) == if id == p.event.jobId then Some(p.event.progress) else Showing(published, id)
  {
    var after := published + [p];
    assert after[..|published|] == published;
    forall n: nat | n < |after|
      ensures PublishedWell(after, n)
    {
      if n < |published| {
        assert after[..n] == published[..n];
        assert PublishedWell(published, n);
      }
    }
  }

  lemma MarksKept(f: Fleet, m: Move)
    requires forall w, id :: 0 <= Mark(MarksOf(f, w), id) <= 100
    ensures forall w, id :: 0 <= Mark(MarksOf(After(f, m), w), id) <= 100
  {
    var g := After(f, m);
    forall w, id
      ensures 0 <= Mark(MarksOf(g, w), id) <= 100
    {
      assert 0 <= Mark(MarksOf(f, w), id) <= 100;
      assert 0 <= Mark(MarksOf(f, w), m.id) <= 100;
    }
  }

  /** Only the job's own moves change what it shows, and only calls for a job lower its marks. */
  lemma HeardShown(f: Fleet, m: Move, id: JobId)
    requires FleetInv(f) && id in After(f, m).heard
    requires forall j :: j != m.id ==> Showing(After(f, m).published, j) == Showing(f.published, j)
    requires |After(f, m).published| > |f.published| ==>
               Showing(After(f, m).published, m.id) == Some(After(f, m).published[|f.published|].event.progress)
    ensures ShownWell(After(f, m), id)
  {
    if id == m.id {
      MovedShown(f, m);
    } else {
      assert ShownWell(f, id);
      assert After(f, m).heard[id] == f.heard[id];
    }
  }

  lemma MovedShown(f: Fleet, m: Move)
    requires FleetInv(f) && m.id in After(f, m).heard
    requires |After(f, m).published| > |f.published| ==>
               Showing(After(f, m).published, m.id) == Some(After(f, m).published[|f.published|].event.progress)
    ensures ShownWell(After(f, m), m.id)
  {
    if m.id in f.heard {
      assert ShownWell(f, m.id);
    }
  }

  lemma MoveKeeps(f: Fleet, m: Move)
    requires FleetInv(f)
    ensures FleetInv(After(f, m))
  {
    var g := After(f, m);
    if |g.published| > |f.published| {
      PublishKeeps(f.published, g.published[|f.published|]);
    }
    MarksKept(f, m);
    forall id | id in g.heard
      ensures ShownWell(g, id)
    {
      HeardShown(f, m, id);
    }
  }

  lemma {:induction false} PlayedKeeps(moves: seq<Move>)
    ensures FleetInv(Played(moves))
  {
    if moves != [] {
      PlayedKeeps(moves[..|moves| - 1]);
      MoveKeeps(Played(moves[..|moves| - 1]), moves[|moves| - 1]);
    }
  }

  /**
   * Published progress of a job goes down exactly where an attempt starts or the job finally fails while
   * something above zero was showing; every published event is in range.
   */
  lemma DescendsExactly(moves: seq<Move>, n: nat)
    requires n < |Played(moves).published|
    ensures var p := Played(moves).published;
            var shown := Showing(p[..n], p[n].event.jobId);
            && 0 <= p[n].event.progress <= 100
            && (Descends(p, n) <==> MayDescend(p[n]) && shown.Some? && shown.value > 0)
  {
    PlayedKeeps(moves);
    assert PublishedWell(Played(moves).published, n);
  }

  lemma PlayedSnoc(moves: seq<Move>, m: Move)
    ensures Played(moves + [m]) == After(Played(moves), m)
  {
    assert (moves + [m])[..|moves|] == moves;
  }

  /** A job halfway through its first attempt. */
  lemma Halfway(id: JobId) returns (moves: seq<Move>)
    ensures var f := Played(moves);
            && f.heard == map[id := 0] && f.running == {id} && f.failed == f.succeeded == {}
            && f.published == [Publication(AttemptStart, StartEvent(id)), Publication(Report, JobEvent(id, Processing, 50))]
  {
    moves := [];
    PlayedSnoc(moves, Start(id, 0));
    moves := moves + [Start(id, 0)];
    PlayedSnoc(moves, Update(id, Some(50)));
    moves := moves + [Update(id, Some(50))];
  }

  /** Both kinds happen: a retry starts over from fifty, and a last attempt fails at fifty. */
  lemma ProgressCanGoDown(id: JobId)
    ensures exists moves :: var p := Played(moves).published; |p| == 3 && p[2].kind == AttemptStart && Descends(p, 2)
    ensures exists moves :: var p := Played(moves).published; |p| == 3 && p[2].event.state == Failed && Descends(p, 2)
  {
    var moves := Halfway(id);
    var shown := Played(moves).published;
    assert Showing(shown, id) == Some(50);
    PlayedSnoc(moves, FailAttempt(id, false));
    PlayedSnoc(moves + [FailAttempt(id, false)], Start(id, 0));
    var retried := Played(moves + [FailAttempt(id, false)] + [Start(id, 0)]).published;
    assert retried[..2] == shown && Descends(retried, 2);
    PlayedSnoc(moves, FailAttempt(id, true));
    var failed := Played(moves + [FailAttempt(id, true)]).published;
    assert failed[..2] == shown && Descends(failed, 2);
  }
}
