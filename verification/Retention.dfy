/**
 * Files and their records over time: staging and its undoing, adoption, saving the record, output writes,
 * the clock, expiry and sweeps, interleaved in any way. Times are real numbers of milliseconds.
 */
module Retention {
  import opened Wrappers
  import opened Paths
  import opened Storage
  import Keys

  /** `gap` bounds the time from an upload's modification time to the saving of its record. */
  datatype Settings = Settings(root: Segments, ttl: real, retention: real, gap: real)

  ghost predicate Sensible(p: Settings) {
    Clean(p.root) && p.root != [] && p.ttl > 0.0 && p.retention > 0.0 && p.gap >= 0.0
  }

  /** `pending` are adopted keys whose record is still to be saved, with the file each had; `lastSweep` is the last fault-free sweep. */
  datatype State = State(now: real, files: Files, redis: Redis, pending: map<string, Node>, lastSweep: real)

  const INIT := State(0.0, map[], map[], map[], 0.0)

  datatype Step =
    | Stage(path: string, size: nat)
    | Unstage(path: string)
    | Adopt(path: string, key: string, rename: Rename)
    | SaveRecord(key: string, id: string)
    | WriteOutput(key: string, written: nat, completes: bool)
    | Tick(elapsed: real)
    | Expire(id: string)
    | Sweep(kept: set<string>)

  function Target(p: Settings, key: string): Option<string> {
    PathFor(Absolute(p.root), key)
  }

  /** Two components below the root, the depth the sweep visits. */
  ghost predicate Visited(p: Settings, path: string) {
    exists d, n :: CleanSegment(d) && CleanSegment(n) && path == Absolute(p.root + [d, n])
  }

  /** Older than the retention time, by the sweep's strict comparison. */
  predicate Stale(f: Node, p: Settings, now: real) {
    f.mtime < now - p.retention
  }

  /** No pending upload and no record lands where the key does, as generated keys guarantee. */
  ghost predicate Unclaimed(s: State, p: Settings, key: string) {
    && Target(p, key).Some? && Target(p, key).value !in s.files
    && (forall k :: k in s.pending ==> Target(p, k) != Target(p, key))
    && (forall k :: k in s.redis && s.redis[k].raw.RecordText? ==> Target(p, s.redis[k].raw.record.storageKey) != Target(p, key))
  }

  /** The upload is still within the gap since its file was last modified. */
  predicate InTime(s: State, p: Settings, f: Node) {
    s.now - f.mtime <= p.gap
  }

  ghost function Apply(s: State, p: Settings, a: Step): State {
    match a
    case Stage(path, size) =>
      if path in s.files || Under(p.root, path) then s else s.(files := s.files[path := Node(size, s.now)])
    case Unstage(path) => if Under(p.root, path) then s else s.(files := s.files - {path})
    case Adopt(path, key, rename) =>
      if path !in s.files || Under(p.root, path) || !InTime(s, p, s.files[path]) || !Unclaimed(s, p, key) then s
      else
        var (files, r) := AfterAdopt(s.files, Absolute(p.root), key, path, rename, s.now);
        s.(files := files, pending := if r.Ok? then s.pending[key := files[Target(p, key).value].(size := r.value.size)] else s.pending)
    case SaveRecord(key, id) =>
      if key !in s.pending || !InTime(s, p, s.pending[key]) || RecordKey(id) in s.redis then s
      else
        var record := FileRecord(id, key, "", "", s.pending[key].size);
        s.(pending := s.pending - {key}, redis := Saved(s.redis, record, p.ttl, s.now))
    case WriteOutput(key, written, completes) =>
      if !Unclaimed(s, p, key) then s
      else s.(files := AfterWrite(s.files, Absolute(p.root), key, written, completes, s.now).0)
    case Tick(elapsed) => if elapsed < 0.0 then s else s.(now := s.now + elapsed)
    case Expire(id) => if Present(s.redis, id, s.now) then s else s.(redis := Removed(s.redis, id))
    case Sweep(kept) =>
      s.(files := map path | path in s.files && !(Visited(p, path) && Stale(s.files[path], p, s.now) && path !in kept) :: s.files[path],
         lastSweep := if kept == {} then s.now else s.lastSweep)
  }

  ghost function Exec(p: Settings, steps: seq<Step>): State {
    if steps == [] then INIT else Apply(Exec(p, steps[..|steps| - 1]), p, steps[|steps| - 1])
  }

  /** A step that is enabled is the call of the storage it stands for. */
  lemma StorageSteps(s: State, p: Settings, path: string, key: string, size: nat, completes: bool)
    ensures !Under(p.root, path) && path !in s.files ==>
      Apply(s, p, Stage(path, size)) == s.(files := s.files[path := Node(size, s.now)])
    ensures !Under(p.root, path) ==> Apply(s, p, Unstage(path)).files == s.files - {path}
    ensures Unclaimed(s, p, key) ==>
      Apply(s, p, WriteOutput(key, size, completes)).files
      == AfterWrite(s.files, Absolute(p.root), key, size, completes, s.now).0
  {
  }

  lemma AdoptStep(s: State, p: Settings, path: string, key: string, rename: Rename)
    requires path in s.files && !Under(p.root, path) && Unclaimed(s, p, key) && s.now - s.files[path].mtime <= p.gap
    ensures var (files, r) := AfterAdopt(s.files, Absolute(p.root), key, path, rename, s.now);
            var t := Apply(s, p, Adopt(path, key, rename));
            t.files == files && (r.Ok? ==> key in t.pending && t.pending[key].size == r.value.size)
  {
  }

  /** And of the repository. */
  lemma RecordSteps(s: State, p: Settings, key: string, id: string)
    ensures key in s.pending && s.now - s.pending[key].mtime <= p.gap && RecordKey(id) !in s.redis ==>
      var t := Apply(s, p, SaveRecord(key, id));
      t.pending == s.pending - {key}
      && t.redis == Saved(s.redis, FileRecord(id, key, "", "", s.pending[key].size), p.ttl, s.now)
    ensures !Present(s.redis, id, s.now) ==> Apply(s, p, Expire(id)).redis == Removed(s.redis, id)
  {
  }

  /** Every record that can still be read has its bytes on disk, of the recorded size. */
  ghost predicate RecordsBacked(s: State, p: Settings) {
    forall id, r :: Lookup(s.redis, id, s.now) == Ok(Some(r)) ==> Backed(s, p, r)
  }

  ghost predicate Backed(s: State, p: Settings, r: FileRecord) {
    var t := Target(p, r.storageKey);
    t.Some? && t.value in s.files && s.files[t.value].size == r.size
  }

  ghost predicate EntryInv(s: State, p: Settings, e: Expiring) {
    e.raw.RecordText? ==>
      var r := e.raw.record;
      var t := Target(p, r.storageKey);
      && t.Some?
      && (s.now <= e.expiresAt ==> Backed(s, p, r))
      && (t.value in s.files ==> e.expiresAt <= s.files[t.value].mtime + p.gap + p.ttl)
      && forall k :: k in s.pending ==> Target(p, k) != t
  }

  ghost predicate Inv(s: State, p: Settings) {
    && (forall k :: k in s.redis ==> EntryInv(s, p, s.redis[k]))
    && (forall k :: k in s.pending ==>
          && Target(p, k).Some?
          && (Target(p, k).value in s.files ==> s.files[Target(p, k).value] == s.pending[k])
          && (s.pending[k].mtime >= s.now - p.retention ==> Target(p, k).value in s.files)
          && forall j :: j in s.pending && j != k ==> Target(p, j) != Target(p, k))
  }

  lemma TargetUnder(p: Settings, key: string)
    requires Sensible(p) && Target(p, key).Some?
    ensures Under(p.root, Target(p, key).value)
  {
    TargetIsUnder(p.root, key);
  }

  /** Any change of the files that leaves claimed targets alone keeps the invariant. */
  lemma FilesFrame(s: State, t: State, p: Settings)
    requires Inv(s, p) && t.redis == s.redis && t.pending == s.pending && t.now == s.now
    requires forall k :: k in s.redis && s.redis[k].raw.RecordText? ==> SameAt(s, t, p, s.redis[k].raw.record.storageKey)
    requires forall k :: k in s.pending ==> SameAt(s, t, p, k)
    ensures Inv(t, p)
  {
    forall k | k in t.redis
      ensures EntryInv(t, p, t.redis[k])
    {
      assert EntryInv(s, p, s.redis[k]);
    }
  }

  ghost predicate SameAt(s: State, t: State, p: Settings, key: string) {
    var target := Target(p, key);
    target.Some? ==>
      && (target.value in s.files <==> target.value in t.files)
      && (target.value in s.files ==> s.files[target.value] == t.files[target.value])
  }

  lemma StageKeeps(s: State, p: Settings, path: string, size: nat)
    requires Sensible(p) && Inv(s, p)
    ensures Inv(Apply(s, p, Stage(path, size)), p)
  {
    var t := Apply(s, p, Stage(path, size));
    forall key
      ensures SameAt(s, t, p, key)
    {
      if Target(p, key).Some? {
        TargetUnder(p, key);
      }
    }
    FilesFrame(s, t, p);
  }

  lemma UnstageKeeps(s: State, p: Settings, path: string)
    requires Sensible(p) && Inv(s, p)
    ensures Inv(Apply(s, p, Unstage(path)), p)
  {
    var t := Apply(s, p, Unstage(path));
    forall key
      ensures SameAt(s, t, p, key)
    {
      if Target(p, key).Some? {
        TargetUnder(p, key);
      }
    }
    FilesFrame(s, t, p);
  }

  lemma WriteKeeps(s: State, p: Settings, key: string, written: nat, completes: bool)
    requires Sensible(p) && Inv(s, p)
    ensures Inv(Apply(s, p, WriteOutput(key, written, completes)), p)
  {
    var t := Apply(s, p, WriteOutput(key, written, completes));
    if t != s {
      forall k | Target(p, k) != Target(p, key)
        ensures SameAt(s, t, p, k)
      {
        WriteElsewhere(s, p, key, written, completes, k);
      }
      FilesFrame(s, t, p);
    }
  }

  lemma WriteElsewhere(s: State, p: Settings, key: string, written: nat, completes: bool, other: string)
    requires Target(p, other) != Target(p, key)
    ensures SameAt(s, Apply(s, p, WriteOutput(key, written, completes)), p, other)
  {
  }

  lemma AdoptKeeps(s: State, p: Settings, path: string, key: string, rename: Rename)
    requires Sensible(p) && Inv(s, p)
    ensures Inv(Apply(s, p, Adopt(path, key, rename)), p)
  {
    var t := Apply(s, p, Adopt(path, key, rename));
    if t != s {
      TargetUnder(p, key);
      var mid := t.(pending := s.pending);
      forall k | Target(p, k) != Target(p, key)
        ensures SameAt(s, mid, p, k)
      {
        AdoptElsewhere(s, p, path, key, rename, k);
      }
      FilesFrame(s, mid, p);
      if t != mid {
        PendingAdded(mid, t, p, key);
      }
    }
  }

  /** One more upload waits for its record, at a target nobody else claims. */
  lemma PendingAdded(s: State, t: State, p: Settings, key: string)
    requires Inv(s, p) && Target(p, key).Some? && Target(p, key).value in s.files
    requires t == s.(pending := s.pending[key := s.files[Target(p, key).value]])
    requires forall k :: k in s.pending ==> Target(p, k) != Target(p, key)
    requires forall k :: k in s.redis && s.redis[k].raw.RecordText? ==> Target(p, s.redis[k].raw.record.storageKey) != Target(p, key)
    ensures Inv(t, p)
  {
    forall k | k in t.redis
      ensures EntryInv(t, p, t.redis[k])
    {
      assert EntryInv(s, p, s.redis[k]);
    }
  }

  lemma AdoptElsewhere(s: State, p: Settings, path: string, key: string, rename: Rename, other: string)
    requires Sensible(p) && Target(p, other) != Target(p, key)
    ensures SameAt(s, Apply(s, p, Adopt(path, key, rename)).(pending := s.pending), p, other)
  {
    if Target(p, other).Some? {
      TargetUnder(p, other);
    }
  }

  lemma SaveKeeps(s: State, p: Settings, key: string, id: string)
    requires Sensible(p) && p.retention >= p.ttl + p.gap && Inv(s, p)
    ensures Inv(Apply(s, p, SaveRecord(key, id)), p)
  {
    var t := Apply(s, p, SaveRecord(key, id));
    forall k | k in t.redis
      ensures EntryInv(t, p, t.redis[k])
    {
      if k in s.redis {
        assert EntryInv(s, p, s.redis[k]);
      }
    }
  }

  lemma SweepKeeps(s: State, p: Settings, kept: set<string>)
    requires Sensible(p) && p.retention >= p.ttl + p.gap && Inv(s, p)
    ensures Inv(Apply(s, p, Sweep(kept)), p)
  {
    var t := Apply(s, p, Sweep(kept));
    forall k | k in t.redis
      ensures EntryInv(t, p, t.redis[k])
    {
      assert EntryInv(s, p, s.redis[k]);
    }
  }

  lemma TickKeeps(s: State, p: Settings, elapsed: real)
    requires Inv(s, p)
    ensures Inv(Apply(s, p, Tick(elapsed)), p)
  {
    var t := Apply(s, p, Tick(elapsed));
    assert t.redis == s.redis && t.pending == s.pending && t.files == s.files && t.now >= s.now;
    forall k | k in t.redis
      ensures EntryInv(t, p, t.redis[k])
    {
      assert EntryInv(s, p, s.redis[k]);
    }
  }

  lemma ExpireKeeps(s: State, p: Settings, id: string)
    requires Inv(s, p)
    ensures Inv(Apply(s, p, Expire(id)), p)
  {
    var t := Apply(s, p, Expire(id));
    assert t.pending == s.pending && t.files == s.files && t.now == s.now;
    forall k | k in t.redis
      ensures EntryInv(t, p, t.redis[k])
    {
      assert t.redis[k] == s.redis[k] && EntryInv(s, p, s.redis[k]);
    }
  }

  lemma {:induction false} Retained(p: Settings, steps: seq<Step>)
    requires Sensible(p) && p.retention >= p.ttl + p.gap
    ensures Inv(Exec(p, steps), p)
  {
    if steps != [] {
      Retained(p, steps[..|steps| - 1]);
      var s, a := Exec(p, steps[..|steps| - 1]), steps[|steps| - 1];
      match a {
        case Stage(path, size) => StageKeeps(s, p, path, size);
        case Unstage(path) => UnstageKeeps(s, p, path);
        case Adopt(path, key, rename) => AdoptKeeps(s, p, path, key, rename);
        case SaveRecord(key, id) => SaveKeeps(s, p, key, id);
        case WriteOutput(key, written, completes) => WriteKeeps(s, p, key, written, completes);
        case Sweep(kept) => SweepKeeps(s, p, kept);
        case Tick(elapsed) => TickKeeps(s, p, elapsed);
        case Expire(id) => ExpireKeeps(s, p, id);
      }
    }
  }

  lemma ExecSnoc(p: Settings, steps: seq<Step>, a: Step)
    ensures Exec(p, steps + [a]) == Apply(Exec(p, steps), p, a)
  {
    assert (steps + [a])[..|steps|] == steps;
  }

  const SLOW_RECORD := FileRecord("i", "uploads/k", "", "", 0)

  function SlowTarget(p: Settings): string {
    Absolute(p.root + ["uploads", "k"])
  }

  /** The state in which a file as old as the gap allows has just got its record. */
  ghost predicate SlowlyUploaded(s: State, p: Settings) {
    && s.now == p.gap && s.pending == map[]
    && s.files == map[SlowTarget(p) := Node(0, 0.0)]
    && s.redis == map[RecordKey("i") := Expiring(RecordText(SLOW_RECORD), p.gap + p.ttl)]
  }

  lemma SlowTargetIs(p: Settings)
    requires Sensible(p)
    ensures Target(p, "uploads/k") == Some(SlowTarget(p)) && Visited(p, SlowTarget(p))
  {
    assert CleanSegment("uploads") && CleanSegment("k");
    Keys.TwoBelowRoot(p.root, "uploads", "k");
    assert "uploads" + "/" + "k" == "uploads/k";
  }

  lemma NotUnder(p: Settings)
    requires Sensible(p)
    ensures !Under(p.root, "t")
  {
  }

  lemma SlowStage(p: Settings)
    requires Sensible(p)
    ensures Apply(Apply(INIT, p, Stage("t", 0)), p, Tick(p.gap)) == State(p.gap, map["t" := Node(0, 0.0)], map[], map[], 0.0)
  {
    NotUnder(p);
    var staged := Apply(INIT, p, Stage("t", 0));
    assert staged.files == map["t" := Node(0, 0.0)];
  }

  lemma SlowAdopt(p: Settings, s: State)
    requires Sensible(p) && s == State(p.gap, map["t" := Node(0, 0.0)], map[], map[], 0.0)
    ensures Apply(s, p, Adopt("t", "uploads/k", Renamed))
         == State(p.gap, map[SlowTarget(p) := Node(0, 0.0)], map[], map["uploads/k" := Node(0, 0.0)], 0.0)
  {
    SlowTargetIs(p);
    NotUnder(p);
    TargetUnder(p, "uploads/k");
    assert Unclaimed(s, p, "uploads/k");
    var adopted := Apply(s, p, Adopt("t", "uploads/k", Renamed));
    assert adopted.files == map[SlowTarget(p) := Node(0, 0.0)];
  }

  lemma SlowSave(p: Settings, s: State)
    requires Sensible(p) && s == State(p.gap, map[SlowTarget(p) := Node(0, 0.0)], map[], map["uploads/k" := Node(0, 0.0)], 0.0)
    ensures SlowlyUploaded(Apply(s, p, SaveRecord("uploads/k", "i")), p)
  {
    SlowTargetIs(p);
    assert InTime(s, p, s.pending["uploads/k"]) && s.pending["uploads/k"].size == 0;
    assert s.pending - {"uploads/k"} == map[];
    var saved := Apply(s, p, SaveRecord("uploads/k", "i"));
    assert saved.redis == map[RecordKey("i") := Expiring(RecordText(SLOW_RECORD), p.gap + p.ttl)];
  }

  /** An upload whose record is saved as late as the gap allows. */
  lemma SlowUpload(p: Settings) returns (steps: seq<Step>)
    requires Sensible(p)
    ensures SlowlyUploaded(Exec(p, steps), p)
  {
    steps := [];
    ExecSnoc(p, steps, Stage("t", 0));
    steps := steps + [Stage("t", 0)];
    ExecSnoc(p, steps, Tick(p.gap));
    steps := steps + [Tick(p.gap)];
    SlowStage(p);
    SlowFinish(p, steps);
    steps := steps + [Adopt("t", "uploads/k", Renamed)] + [SaveRecord("uploads/k", "i")];
  }

  lemma SlowFinish(p: Settings, steps: seq<Step>)
    requires Sensible(p) && Exec(p, steps) == State(p.gap, map["t" := Node(0, 0.0)], map[], map[], 0.0)
    ensures SlowlyUploaded(Exec(p, steps + [Adopt("t", "uploads/k", Renamed)] + [SaveRecord("uploads/k", "i")]), p)
  {
    var adopted := steps + [Adopt("t", "uploads/k", Renamed)];
    ExecSnoc(p, steps, Adopt("t", "uploads/k", Renamed));
    SlowAdopt(p, Exec(p, steps));
    ExecSnoc(p, adopted, SaveRecord("uploads/k", "i"));
    SlowSave(p, Exec(p, adopted));
  }

  /** With less retention, the slow upload's file is swept while its record still stands. */
  lemma SweptWhileRecorded(p: Settings) returns (steps: seq<Step>)
    requires Sensible(p) && p.retention < p.ttl + p.gap
    ensures !RecordsBacked(Exec(p, steps), p)
  {
    steps := SlowUpload(p);
    var late := if p.retention < p.gap then p.gap else p.retention;
    var wait := (late + p.gap + p.ttl) / 2.0 - p.gap;
    var uploaded := Exec(p, steps);
    ExecSnoc(p, steps, Tick(wait));
    ExecSnoc(p, steps + [Tick(wait)], Sweep({}));
    SweepTooEarly(uploaded, p, wait);
    steps := steps + [Tick(wait)] + [Sweep({})];
  }

  lemma SweepTooEarly(s: State, p: Settings, wait: real)
    requires Sensible(p) && SlowlyUploaded(s, p)
    requires wait >= 0.0 && p.retention < s.now + wait < p.gap + p.ttl
    ensures !RecordsBacked(Apply(Apply(s, p, Tick(wait)), p, Sweep({})), p)
  {
    var t := Apply(Apply(s, p, Tick(wait)), p, Sweep({}));
    SlowTargetIs(p);
    assert t.files == map[];
    assert Lookup(t.redis, "i", t.now) == Ok(Some(SLOW_RECORD)) && !Backed(t, p, SLOW_RECORD);
  }

  /**
   * Every readable record's bytes exist in every run, exactly when retention is at least the record's time
   * to live plus the longest time from a file's modification to its record. Equal settings do not suffice.
   */
  lemma RetentionExactly(p: Settings)
    requires Sensible(p)
    ensures (forall steps :: RecordsBacked(Exec(p, steps), p)) <==> p.retention >= p.ttl + p.gap
  {
    if p.retention >= p.ttl + p.gap {
      forall steps
        ensures RecordsBacked(Exec(p, steps), p)
      {
        Retained(p, steps);
        var s := Exec(p, steps);
        forall id, r | Lookup(s.redis, id, s.now) == Ok(Some(r))
          ensures Backed(s, p, r)
        {
          assert EntryInv(s, p, s.redis[RecordKey(id)]);
        }
      }
    } else {
      var steps := SweptWhileRecorded(p);
    }
  }

  /** No file at the visited depth was already stale at the last fault-free sweep. */
  ghost predicate SweptClean(s: State, p: Settings) {
    && s.lastSweep <= s.now
    && forall path :: path in s.files && Visited(p, path) ==> s.files[path].mtime >= s.lastSweep - p.retention
  }

  lemma VisitedIsUnder(p: Settings, path: string)
    requires Sensible(p) && Visited(p, path)
    ensures Under(p.root, path)
  {
    var d, n :| CleanSegment(d) && CleanSegment(n) && path == Absolute(p.root + [d, n]);
    assert Clean([d, n]);
  }

  lemma SweptCleanStep(s: State, p: Settings, a: Step)
    requires Sensible(p) && p.gap <= p.retention && SweptClean(s, p)
    ensures SweptClean(Apply(s, p, a), p)
  {
    var t := Apply(s, p, a);
    forall path | path in t.files && Visited(p, path)
      ensures t.files[path].mtime >= t.lastSweep - p.retention
    {
      if !a.Sweep? {
        VisitedIsUnder(p, path);
        SameOrFresh(s, p, a, path);
      }
    }
  }

  /** A step other than a sweep leaves a file below the root as it was, or no older than retention allows. */
  lemma SameOrFresh(s: State, p: Settings, a: Step, path: string)
    requires p.gap <= p.retention && p.retention > 0.0 && !a.Sweep?
    requires path in Apply(s, p, a).files && Under(p.root, path)
    ensures || (path in s.files && Apply(s, p, a).files[path] == s.files[path])
            || Apply(s, p, a).files[path].mtime >= s.now - p.retention
  {
    match a {
      case Adopt(from, key, rename) =>
        AdoptChanges(s.files, Absolute(p.root), key, from, rename, s.now, path);
      case WriteOutput(key, written, completes) =>
      case _ =>
    }
  }

  lemma {:induction false} SweptCleanAlways(p: Settings, steps: seq<Step>)
    requires Sensible(p) && p.gap <= p.retention
    ensures SweptClean(Exec(p, steps), p)
  {
    if steps != [] {
      SweptCleanAlways(p, steps[..|steps| - 1]);
      SweptCleanStep(Exec(p, steps[..|steps| - 1]), p, steps[|steps| - 1]);
    }
  }

  /** While fault-free sweeps come at least every `interval`, no visited file outlives retention by more than that. */
  lemma GoneAfterRetention(p: Settings, steps: seq<Step>, interval: real, path: string)
    requires Sensible(p) && p.gap <= p.retention
    requires Exec(p, steps).now - Exec(p, steps).lastSweep <= interval
    requires path in Exec(p, steps).files && Visited(p, path)
    ensures Exec(p, steps).now <= Exec(p, steps).files[path].mtime + p.retention + interval
  {
    SweptCleanAlways(p, steps);
  }
}
