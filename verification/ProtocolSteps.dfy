/** Every step of the protocol keeps the invariant. */
module ProtocolSteps {
  import opened Wrappers
  import opened JobEvents
  import opened EventStream
  import opened Worker
  import opened Protocol
  import opened ProtocolInvariant

  /** What a job step may append to the log, and what the job then remembers of it. */
  ghost predicate JobStepEffect(job: Job, after: Job, j: JobId, sent: seq<Command>, at: nat) {
    && |sent| <= 1
    && (job.publishedAt.Some? ==> after.publishedAt == job.publishedAt)
    && (job.committedAt.Some? ==> after.committedAt == job.committedAt && after.final == job.final)
    && (sent != [] ==>
          match sent[0]
          case Publish(e) => e.jobId == j && (Terminal(e) ==> after.publishedAt == Some(at))
          case Commit(k, p) => k == j && after.committedAt == Some(at) && after.final == Some(p)
          case _ => false)
  }

  lemma JobStepKeeps(log: seq<Command>, j: JobId, job: Job, a: Step)
    requires IsJobStep(a) && JobInv(log, j, job)
    ensures var (after, sent) := JobStep(job, j, a, |log|);
            && JobInv(log + sent, j, after)
            && JobGrows(job, after, |log|)
            && JobStepEffect(job, after, j, sent, |log|)
  {
    var (after, sent) := JobStep(job, j, a, |log|);
    assert forall i :: 0 <= i < |log| ==> (log + sent)[i] == log[i];
  }

  lemma JobInvFrame(log: seq<Command>, more: seq<Command>, j: JobId, job: Job)
    requires JobInv(log, j, job)
    ensures JobInv(log + more, j, job)
  {
    assert forall i :: 0 <= i < |log| ==> (log + more)[i] == log[i];
  }

  lemma ConnsFrame(s: State, t: State)
    requires Grows(s, t) && ConnsInv(s) && t.conns == s.conns
    ensures ConnsInv(t)
  {
    forall w | w in t.conns
      ensures ConnInv(t, w, t.conns[w])
    {
      ConnFrame(s, t, w, s.conns[w]);
    }
  }

  lemma JobStepLog(s: State, t: State, j: JobId, sent: seq<Command>)
    requires LogInv(s) && j in s.jobs && j in t.jobs
    requires t.log == s.log + sent && t.conns == s.conns && t.jobs == s.jobs[j := t.jobs[j]]
    requires JobStepEffect(s.jobs[j], t.jobs[j], j, sent, |s.log|)
    ensures LogInv(t)
  {
    forall i: nat | i < |t.log|
      ensures CommandInv(t, i)
    {
      if i < |s.log| {
        assert CommandInv(s, i) && t.log[i] == s.log[i];
      } else {
        assert t.log[i] == sent[0];
      }
    }
  }

  /** What a job step does to everything but the connections. */
  lemma JobStepParts(s: State, j: JobId, a: Step)
    requires JobsInv(s) && LogInv(s) && IsJobStep(a) && j in s.jobs
    ensures var t := ApplyToJob(s, j, a);
            JobsInv(t) && LogInv(t) && Grows(s, t) && Wire(s.log) <= Wire(t.log) && t.conns == s.conns
  {
    var t := ApplyToJob(s, j, a);
    var (after, sent) := JobStep(s.jobs[j], j, a, |s.log|);
    JobStepKeeps(s.log, j, s.jobs[j], a);
    assert t.jobs == s.jobs[j := after] && t.log == s.log + sent && t.conns == s.conns;
    JobsAfter(s, t, j, after, sent);
    WireExtends(s.log, sent);
    JobStepLog(s, t, j, sent);
  }

  lemma ApplyJobStep(s: State, j: JobId, a: Step)
    requires Inv(s) && IsJobStep(a) && j in s.jobs
    ensures Inv(ApplyToJob(s, j, a))
  {
    JobStepParts(s, j, a);
    ConnsFrame(s, ApplyToJob(s, j, a));
    TallyKept(s, j, a);
  }

  lemma JobsAfter(s: State, t: State, j: JobId, after: Job, sent: seq<Command>)
    requires JobsInv(s) && t.jobs == s.jobs[j := after] && t.log == s.log + sent && JobInv(t.log, j, after)
    ensures JobsInv(t)
  {
    forall k | k in t.jobs
      ensures JobInv(t.log, k, t.jobs[k])
    {
      if k != j {
        JobInvFrame(s.log, sent, k, s.jobs[k]);
      }
    }
  }

  lemma TallyKept(s: State, j: JobId, a: Step)
    requires TallyInv(s) && IsJobStep(a) && j in s.jobs && JobInv(s.log, j, s.jobs[j])
    ensures TallyInv(ApplyToJob(s, j, a))
  {
    var t := ApplyToJob(s, j, a);
    forall p | Counted(s.jobs[j], p)
      ensures Counted(t.jobs[j], p)
    {
      CountedStays(s.log, s.jobs[j], j, a, p);
    }
    assert t.jobs == s.jobs[j := t.jobs[j]];
    if a.Count? && a.accepted && s.jobs[j].stage.Counting? {
      assert s.jobs[j].announced == Some(OutcomeOf(s.jobs[j].stage.exit));
      assert t.jobs[j] == s.jobs[j].(stage := Leaving(s.jobs[j].stage.exit));
      TallyGrows(s, t, j, OutcomeOf(s.jobs[j].stage.exit));
    } else {
      TallyFrame(s, t, j);
    }
  }

  lemma TallyFrame(s: State, t: State, j: JobId)
    requires TallyInv(s) && j in s.jobs && j in t.jobs && t.jobs == s.jobs[j := t.jobs[j]]
    requires forall p :: Counted(s.jobs[j], p) ==> Counted(t.jobs[j], p)
    requires t.completedTotal == s.completedTotal && t.failedTotal == s.failedTotal
    requires t.completedTally == s.completedTally && t.failedTally == s.failedTally
    ensures TallyInv(t)
  {
  }

  lemma TallyGrows(s: State, t: State, j: JobId, p: Phase)
    requires TallyInv(s) && j in s.jobs && j in t.jobs && t.jobs == s.jobs[j := t.jobs[j]]
    requires IsOutcome(p) && s.jobs[j].stage.Counting? && Counted(t.jobs[j], p)
    requires t.completedTotal == s.completedTotal + (if p.Completed? then 1 else 0)
    requires t.failedTotal == s.failedTotal + (if p.Failed? then 1 else 0)
    requires t.completedTally == s.completedTally + (if p.Completed? then {j} else {})
    requires t.failedTally == s.failedTally + (if p.Failed? then {j} else {})
    ensures TallyInv(t)
  {
    assert j !in s.completedTally && j !in s.failedTally;
  }

  lemma CountedStays(log: seq<Command>, job: Job, j: JobId, a: Step, p: Phase)
    requires IsJobStep(a) && JobInv(log, j, job) && Counted(job, p)
    ensures Counted(JobStep(job, j, a, |log|).0, p)
  {
  }

  lemma OnMessageKeeps(jobs: map<JobId, Job>, c: Conn, e: JobEvent, at: nat)
    requires Reporting(jobs, c) && Lifecycle(c) && !c.stage.Fetched?
    requires c.stream.attached <==> c.until.None?
    requires Terminal(e) ==> SaysOutcome(jobs, e.jobId, e)
    ensures var d := Receive(c, e, at);
            && Reporting(jobs, d) && Lifecycle(d)
            && d.stage == c.stage && d.stream.jobId == c.stream.jobId && d.since == c.since
            && d.subscribedAt == c.subscribedAt && d.readAt == c.readAt && d.unsubscribedAt == c.unsubscribedAt
            && (d.stream.attached <==> d.until.None?)
            && (c.until.Some? ==> d.until == c.until && d.stream.got == c.stream.got)
            && (c.until.None? && d.until.Some? ==> d.until == Some(at))
            && (c.until.None? ==>
                  d.stream.got == if e.jobId == c.stream.jobId && SchemaValid(e) then c.stream.got + [e] else c.stream.got)
  {
    ChannelForIsInjective(e.jobId, c.stream.jobId);
    var x := c.stream;
    var d := Receive(c, e, at);
    if x.attached && e.jobId == x.jobId && SchemaValid(e) {
      assert d.stream.got == x.got + [e];
      assert d.stream.got[|x.got|] == e;
      assert forall i :: 0 <= i < |x.got| ==> d.stream.got[i] == x.got[i];
      if !x.Closed() {
        assert d.stream.out == x.out + [Data(e)];
        assert d.stream.out[|x.out|] == Data(e);
        assert forall i :: 0 <= i < |x.out| ==> d.stream.out[i] == x.out[i];
        assert !Informed(x);
        assert Informed(d.stream) <==> Terminal(e);
      } else {
        assert d.stream.out == x.out;
        assert Informed(d.stream) <==> Informed(x);
      }
      assert HeardOutcome(d) <==> HeardOutcome(c) || Terminal(e);
    } else {
      assert d == c;
    }
  }

  lemma ApplyDeliver(s: State)
    requires Inv(s) && s.delivered < |Wire(s.log)|
    ensures Inv(ApplyDelivery(s))
  {
    var t := ApplyDelivery(s);
    var e := Wire(s.log)[s.delivered];
    OnWire(s, s.delivered);
    forall w | w in t.conns
      ensures ConnInv(t, w, t.conns[w])
    {
      ReceiveKeeps(s, w, s.conns[w], e);
      ConnInvIgnoresOthers(s.(delivered := s.delivered + 1), t, w, t.conns[w]);
    }
    forall i: nat | i < |t.log|
      ensures CommandInv(t, i)
    {
      assert CommandInv(s, i);
    }
  }

  /** Every message on the connection concerns a known job, and names its outcome if it is terminal. */
  lemma OnWire(s: State, k: nat)
    requires JobsInv(s) && LogInv(s) && k < |Wire(s.log)|
    ensures Terminal(Wire(s.log)[k]) ==> SaysOutcome(s.jobs, Wire(s.log)[k].jobId, Wire(s.log)[k])
  {
    var e := Wire(s.log)[k];
    var p := WireOrigin(s.log, k);
    assert CommandInv(s, p);
    assert JobInv(s.log, e.jobId, s.jobs[e.jobId]);
  }

  lemma ConnInvIgnoresOthers(s: State, t: State, w: WatcherId, c: Conn)
    requires ConnInv(s, w, c) && s.jobs == t.jobs && s.log == t.log && s.delivered == t.delivered
    ensures ConnInv(t, w, c)
  {
  }

  lemma ReceiveKeeps(s: State, w: WatcherId, c: Conn, e: JobEvent)
    requires s.delivered < |Wire(s.log)| && e == Wire(s.log)[s.delivered]
    requires ConnInv(s, w, c) && (Terminal(e) ==> SaysOutcome(s.jobs, e.jobId, e))
    ensures ConnInv(s.(delivered := s.delivered + 1), w, Receive(c, e, s.delivered + 1))
  {
    var d := Receive(c, e, s.delivered + 1);
    if c.stage.Fetched? {
      assert d == c;
    } else {
      OnMessageKeeps(s.jobs, c, e, s.delivered + 1);
      HeardStep(s, c, d, e);
    }
  }

  lemma HeardStep(s: State, c: Conn, d: Conn, e: JobEvent)
    requires s.delivered < |Wire(s.log)| && e == Wire(s.log)[s.delivered]
    requires Listening(s, c)
    requires d.stream.jobId == c.stream.jobId && d.since == c.since && (d.stream.attached <==> d.until.None?)
    requires c.until.Some? ==> d.until == c.until && d.stream.got == c.stream.got
    requires c.until.None? && d.until.Some? ==> d.until == Some(s.delivered + 1)
    requires c.until.None? ==>
      d.stream.got == if e.jobId == c.stream.jobId && SchemaValid(e) then c.stream.got + [e] else c.stream.got
    ensures Listening(s.(delivered := s.delivered + 1), d)
  {
    if c.until.None? {
      HeardNext(Wire(s.log), c.stream.jobId, c.since, s.delivered);
    }
  }

  lemma HeardNext(wire: seq<JobEvent>, jobId: JobId, from: nat, to: nat)
    requires from <= to < |wire|
    ensures Heard(wire[from..to + 1], jobId)
         == Heard(wire[from..to], jobId)
            + if wire[to].jobId == jobId && SchemaValid(wire[to]) then [wire[to]] else []
  {
    assert wire[from..to + 1][..to - from] == wire[from..to];
  }

  lemma SnapshotKeeps(jobs: map<JobId, Job>, c: Conn, at: nat)
    requires Reporting(jobs, c) && Lifecycle(c) && c.stage.Answered?
    requires SettledState(c.stage.state) ==> SaysOutcome(jobs, c.stream.jobId, SnapshotEvent(c.stream, c.stage.state))
    ensures var d := Track(c, Snapshot(c.stream, c.stage.state), at).(stage := Finished(c.stage.state));
            Reporting(jobs, d) && Lifecycle(d)
  {
    var x := c.stream;
    var e := SnapshotEvent(x, c.stage.state);
    var d := Track(c, Snapshot(x, c.stage.state), at).(stage := Finished(c.stage.state));
    assert d.stream.got == x.got;
    assert HeardOutcome(d) <==> HeardOutcome(c);
    assert ReadOutcome(d) <==> Terminal(e);
    if x.ends == 0 {
      assert d.stream.out == x.out + [Data(e)];
      assert d.stream.out[|x.out|] == Data(e);
      assert forall i :: 0 <= i < |x.out| ==> d.stream.out[i] == x.out[i];
      assert Informed(d.stream) <==> Informed(x) || Terminal(e);
    } else {
      assert d.stream.out == x.out;
      assert Informed(d.stream) <==> Informed(x);
    }
  }

  /** What a connection's step may append to the log, and what the connection then remembers of it. */
  ghost predicate ConnStepEffect(c: Conn, d: Conn, w: WatcherId, sent: seq<Command>, at: nat) {
    && |sent| <= 1
    && d.stream.jobId == c.stream.jobId
    && (c.subscribedAt.Some? ==> d.subscribedAt == c.subscribedAt)
    && (c.unsubscribedAt.Some? ==> d.unsubscribedAt == c.unsubscribedAt)
    && (c.readAt.Some? ==> d.readAt == c.readAt)
    && (sent != [] ==>
          match sent[0]
          case Subscribe(v, j) => v == w && j == c.stream.jobId && d.subscribedAt == Some(at)
          case Unsubscribe(v, j) => v == w && j == c.stream.jobId && d.unsubscribedAt == Some(at)
          case GetState(v) => v == w && d.readAt == Some(at)
          case _ => false)
  }

  lemma StepEffect(s: State, w: WatcherId, c: Conn, a: Step)
    requires IsConnStep(a) && ConnInv(s, w, c)
    ensures var (d, sent) := ConnStep(s, w, c, a);
            ConnStepEffect(c, d, w, sent, |s.log|)
  {
  }

  lemma StepPositions(s: State, t: State, w: WatcherId, c: Conn, a: Step)
    requires IsConnStep(a) && ConnInv(s, w, c) && JobInv(s.log, c.stream.jobId, s.jobs[c.stream.jobId])
    requires s.delivered <= |Wire(s.log)|
    requires t.log == s.log + ConnStep(s, w, c, a).1 && t.jobs == s.jobs && t.delivered == s.delivered
    requires Positions(t, w, c)
    ensures Positions(t, w, ConnStep(s, w, c, a).0)
  {
    assert t.log[..|s.log|] == s.log;
  }

  lemma StepLifecycle(s: State, w: WatcherId, c: Conn, a: Step)
    requires IsConnStep(a) && !c.stage.Fetched? && Lifecycle(c) && c.stream.jobId in s.jobs
    requires c.subscribedAt.None? ==> c.readAt.None?
    ensures Lifecycle(ConnStep(s, w, c, a).0)
  {
  }

  lemma StepReporting(s: State, w: WatcherId, c: Conn, a: Step)
    requires IsConnStep(a) && !c.stage.Fetched? && Lifecycle(c) && Reporting(s.jobs, c)
    requires c.stream.jobId in s.jobs
    requires c.stage.Answered? && SettledState(c.stage.state) ==>
      SaysOutcome(s.jobs, c.stream.jobId, SnapshotEvent(c.stream, c.stage.state))
    ensures Reporting(s.jobs, ConnStep(s, w, c, a).0)
  {
    var d := ConnStep(s, w, c, a).0;
    if a.StateReply? && c.stage.Answered? {
      SnapshotKeeps(s.jobs, c, s.delivered);
    } else {
      assert d.stream.got == c.stream.got;
      assert HeardOutcome(d) <==> HeardOutcome(c);
      assert ReadOutcome(d) <==> ReadOutcome(c);
      assert d.stream.out == c.stream.out || d.stream.out == c.stream.out + [KeepAlive];
      assert forall i :: 0 <= i < |c.stream.out| ==> d.stream.out[i] == c.stream.out[i];
      assert Informed(d.stream) <==> Informed(c.stream);
    }
  }

  lemma AttachKeeps(s: State, t: State, w: WatcherId, c: Conn)
    requires c.stage.Fetched? && ConnInv(s, w, c) && ConnInv(t, w, c) && t.log == s.log && t.jobs == s.jobs && t.delivered == s.delivered
    requires s.delivered <= |Wire(s.log)|
    ensures ConnInv(t, w, ConnStep(s, w, c, Attach(w)).0)
  {
    assert Wire(t.log)[s.delivered..s.delivered] == [];
  }

  lemma ConnStepKeeps(s: State, w: WatcherId, c: Conn, a: Step)
    requires IsConnStep(a) && a.w == w && ConnInv(s, w, c)
    requires JobInv(s.log, c.stream.jobId, s.jobs[c.stream.jobId])
    requires s.delivered <= |Wire(s.log)|
    ensures var (d, sent) := ConnStep(s, w, c, a);
            ConnInv(s.(log := s.log + sent), w, d)
  {
    var (d, sent) := ConnStep(s, w, c, a);
    var t := s.(log := s.log + sent);
    assert forall j :: j in s.jobs ==> JobGrows(s.jobs[j], t.jobs[j], |s.log|);
    ConnFrame(s, t, w, c);
    if c.stage.Fetched? {
      FetchedKeeps(s, t, w, c, a);
    } else {
      StartedKeeps(s, t, w, c, a);
    }
  }

  lemma StartedKeeps(s: State, t: State, w: WatcherId, c: Conn, a: Step)
    requires IsConnStep(a) && a.w == w && !c.stage.Fetched? && ConnInv(s, w, c) && ConnInv(t, w, c)
    requires JobInv(s.log, c.stream.jobId, s.jobs[c.stream.jobId])
    requires t == s.(log := s.log + ConnStep(s, w, c, a).1) && s.delivered <= |Wire(s.log)|
    ensures ConnInv(t, w, ConnStep(s, w, c, a).0)
  {
    AnswerSaysOutcome(s, w, c);
    StepPositions(s, t, w, c, a);
    StepLifecycle(s, w, c, a);
    StepReporting(s, w, c, a);
  }

  /** A settled state that was read is the job's announced outcome. */
  lemma AnswerSaysOutcome(s: State, w: WatcherId, c: Conn)
    requires c.stream.jobId in s.jobs && Positions(s, w, c) && JobInv(s.log, c.stream.jobId, s.jobs[c.stream.jobId])
    ensures c.stage.Answered? && SettledState(c.stage.state) ==>
      SaysOutcome(s.jobs, c.stream.jobId, SnapshotEvent(c.stream, c.stage.state))
  {
  }

  lemma FetchedKeeps(s: State, t: State, w: WatcherId, c: Conn, a: Step)
    requires IsConnStep(a) && a.w == w && c.stage.Fetched? && ConnInv(s, w, c) && ConnInv(t, w, c)
    requires t == s.(log := s.log + ConnStep(s, w, c, a).1) && s.delivered <= |Wire(s.log)|
    ensures ConnInv(t, w, ConnStep(s, w, c, a).0)
  {
    if a.Attach? {
      AttachKeeps(s, t, w, c);
    }
  }

  lemma ApplyConnStep(s: State, w: WatcherId, a: Step)
    requires Inv(s) && IsConnStep(a) && a.w == w && w in s.conns && s.conns[w].stream.jobId in s.jobs
    ensures Inv(ApplyToConn(s, w, a))
  {
    var t := ApplyToConn(s, w, a);
    var c := s.conns[w];
    var (d, sent) := ConnStep(s, w, c, a);
    assert ConnInv(s, w, c) && JobInv(s.log, c.stream.jobId, s.jobs[c.stream.jobId]);
    ConnStepKeeps(s, w, c, a);
    StepEffect(s, w, c, a);
    WireExtends(s.log, sent);
    ConnsAfter(s, t, w, d, sent);
    LongerLog(s, t, sent);
    ConnStepLog(s, t, w, sent);
  }

  lemma LongerLog(s: State, t: State, sent: seq<Command>)
    requires JobsInv(s) && t.jobs == s.jobs && t.log == s.log + sent
    ensures JobsInv(t)
  {
    forall j | j in t.jobs
      ensures JobInv(t.log, j, t.jobs[j])
    {
      JobInvFrame(s.log, sent, j, s.jobs[j]);
    }
  }

  lemma ConnsAfter(s: State, t: State, w: WatcherId, d: Conn, sent: seq<Command>)
    requires ConnsInv(s) && t == s.(conns := s.conns[w := d], log := s.log + sent)
    requires ConnInv(s.(log := s.log + sent), w, d)
    ensures ConnsInv(t)
  {
    var mid := s.(log := s.log + sent);
    assert Grows(s, mid);
    ConnsFrame(s, mid);
    forall v | v in t.conns
      ensures ConnInv(t, v, t.conns[v])
    {
      ConnInvIgnoresOthers(mid, t, v, t.conns[v]);
    }
  }

  lemma ConnStepLog(s: State, t: State, w: WatcherId, sent: seq<Command>)
    requires LogInv(s) && w in s.conns && w in t.conns
    requires t.log == s.log + sent && t.jobs == s.jobs && t.conns == s.conns[w := t.conns[w]]
    requires ConnStepEffect(s.conns[w], t.conns[w], w, sent, |s.log|)
    ensures LogInv(t)
  {
    forall i: nat | i < |t.log|
      ensures CommandInv(t, i)
    {
      if i < |s.log| {
        assert CommandInv(s, i) && t.log[i] == s.log[i];
      } else {
        assert t.log[i] == sent[0];
      }
    }
  }

  lemma AddJobKeeps(s: State, j: JobId, attempts: nat)
    requires Inv(s) && j !in s.jobs
    ensures Inv(ApplyArrival(s, AddJob(j, attempts)))
  {
    var t := ApplyArrival(s, AddJob(j, attempts));
    assert forall k :: k in s.jobs ==> JobGrows(s.jobs[k], t.jobs[k], |s.log|);
    ConnsFrame(s, t);
    forall i: nat | i < |t.log|
      ensures CommandInv(t, i)
    {
      assert CommandInv(s, i);
    }
  }

  lemma FetchKeeps(s: State, w: WatcherId, j: JobId)
    requires Inv(s) && j in s.jobs && w !in s.conns
    ensures Inv(ApplyArrival(s, Fetch(w, j)))
  {
    var t := ApplyArrival(s, Fetch(w, j));
    forall v | v in t.conns
      ensures ConnInv(t, v, t.conns[v])
    {
      if v != w {
        ConnInvIgnoresOthers(s, t, v, t.conns[v]);
      }
    }
    forall i: nat | i < |t.log|
      ensures CommandInv(t, i)
    {
      assert CommandInv(s, i);
    }
  }

  lemma ApplyKeeps(s: State, a: Step)
    requires Inv(s)
    ensures Inv(Apply(s, a))
  {
    if IsJobStep(a) {
      if a.j in s.jobs {
        ApplyJobStep(s, a.j, a);
      }
    } else if IsConnStep(a) {
      if a.w in s.conns && s.conns[a.w].stream.jobId in s.jobs {
        ApplyConnStep(s, a.w, a);
      }
    } else if a.Deliver? {
      if s.delivered < |Wire(s.log)| {
        ApplyDeliver(s);
      }
    } else if a.AddJob? {
      if a.j !in s.jobs {
        AddJobKeeps(s, a.j, a.attempts);
      }
    } else if a.j in s.jobs && a.w !in s.conns {
      FetchKeeps(s, a.w, a.j);
    }
  }

  lemma {:induction false} ExecKeeps(s: State, steps: seq<Step>)
    requires Inv(s)
    ensures Inv(ExecFrom(s, steps))
  {
    if steps != [] {
      ExecKeeps(s, steps[..|steps| - 1]);
      ApplyKeeps(ExecFrom(s, steps[..|steps| - 1]), steps[|steps| - 1]);
    }
  }

  lemma ReachableStep(s: State, a: Step)
    requires Reachable(s)
    ensures Reachable(Apply(s, a))
  {
    var steps :| ExecFrom(INIT, steps) == s;
    assert (steps + [a])[..|steps|] == steps;
    assert ExecFrom(INIT, steps + [a]) == Apply(s, a);
  }

  /** The invariant holds after every schedule. */
  lemma ReachableInv(s: State)
    requires Reachable(s)
    ensures Inv(s)
  {
    var steps :| ExecFrom(INIT, steps) == s;
    ExecKeeps(INIT, steps);
  }
}
