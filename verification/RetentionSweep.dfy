/** The sweep over the directory tree is the sweep step of the timed machine. */
module RetentionSweep {
  import opened Wrappers
  import opened Paths
  import opened Storage
  import opened Retention
  import S = Sweep

  function PathOf(p: Settings, place: S.Place): string {
    Absolute(p.root + [place.0, place.1])
  }

  ghost predicate Named(place: S.Place) {
    CleanSegment(place.0) && CleanSegment(place.1)
  }

  function LeafAt(t: S.Tree, place: S.Place): Option<S.Leaf> {
    if place.0 in t && t[place.0].Directory? && place.1 in t[place.0].files
    then Some(t[place.0].files[place.1]) else None
  }

  /** The tree is what the sweep finds on the disk: the regular files two components below the root. */
  ghost predicate Shows(p: Settings, files: Files, t: S.Tree) {
    && (forall place: S.Place :: LeafAt(t, place).Some? ==> Named(place))
    && forall place: S.Place :: Named(place) ==> Agrees(p, files, t, place)
  }

  ghost predicate Agrees(p: Settings, files: Files, t: S.Tree, place: S.Place) {
    var leaf := LeafAt(t, place);
    if PathOf(p, place) in files
    then leaf == Some(S.File(files[PathOf(p, place)].size, files[PathOf(p, place)].mtime))
    else leaf.None? || leaf.value.NotRegular?
  }

  lemma PathOfIsInjective(p: Settings, a: S.Place, b: S.Place)
    requires Sensible(p) && Named(a) && Named(b) && PathOf(p, a) == PathOf(p, b)
    ensures a == b
  {
    var x, y := p.root + [a.0, a.1], p.root + [b.0, b.1];
    RenderInjective(x, y);
    assert x[|p.root|] == a.0 && x[|p.root| + 1] == a.1 && y[|p.root|] == b.0 && y[|p.root| + 1] == b.1;
  }

  /** The stale files a faulty sweep leaves behind. */
  ghost function KeptBy(s: State, p: Settings, t: S.Tree, f: S.Faults): set<string> {
    set path | path in s.files && Stale(s.files[path], p, s.now)
               && exists place: S.Place :: Named(place) && path == PathOf(p, place)
                                           && !S.Doomed(t, f, s.now - p.retention, place)
  }

  /** A tree after a sweep, leaf by leaf. */
  ghost predicate SweptTo(t: S.Tree, f: S.Faults, cutoff: real, after: S.Tree) {
    forall place: S.Place :: LeafAt(after, place) == if S.Doomed(t, f, cutoff, place) then None else LeafAt(t, place)
  }

  /** `CleanupOldFiles` leaves such a tree. */
  lemma CleanupSweepsTo(t: S.Tree, f: S.Faults, cutoff: real, o: S.Order)
    requires S.ValidOrder(t, o)
    ensures SweptTo(t, f, cutoff, S.Without(t, f, cutoff, S.Elements(S.Places(t, f, o, o.entries))))
  {
    S.SweepRemovesExactly(t, f, cutoff, o);
    S.PlacesExactly(t, f, o, o.entries);
  }

  /**
   * Whatever fails, what the sweep leaves of the tree shows what the machine's sweep step leaves of the
   * disk, with exactly the stale survivors kept; without faults nothing stale is kept.
   */
  lemma CleanupIsSweepStep(s: State, p: Settings, t: S.Tree, f: S.Faults, after: S.Tree)
    requires Sensible(p) && Shows(p, s.files, t) && SweptTo(t, f, s.now - p.retention, after)
    ensures Shows(p, Apply(s, p, Sweep(KeptBy(s, p, t, f))).files, after)
    ensures f == S.NO_FAULTS ==> KeptBy(s, p, t, f) == {}
  {
    if f == S.NO_FAULTS {
      NothingKept(s, p, t);
    }
    var left := Apply(s, p, Sweep(KeptBy(s, p, t, f))).files;
    forall place: S.Place
      ensures LeafAt(after, place).Some? ==> Named(place)
      ensures Named(place) ==> Agrees(p, left, after, place)
    {
      assert LeafAt(after, place) == if S.Doomed(t, f, s.now - p.retention, place) then None else LeafAt(t, place);
      if Named(place) {
        SurvivesExactly(s, p, t, f, place);
      }
    }
  }

  /**
   * The worker's call of the cleanup, whatever fails in it, is the machine's sweep step when the retention is
   * the call's hours: what it leaves shows what the step leaves, and exactly the files it had to keep are kept.
   */
  lemma CleanupCallIsSweepStep(s: State, p: Settings, t: S.Tree, f: S.Faults, o: S.Order, hours: nat)
    requires Sensible(p) && p.retention == hours as real * 3600000.0
    requires Shows(p, s.files, t) && S.ValidOrder(t, o)
    ensures var after := S.Without(t, f, S.Cutoff(s.now, hours), S.Elements(S.Places(t, f, o, o.entries)));
            && S.Cleaned(t, f, s.now, hours, after)
            && Shows(p, Apply(s, p, Sweep(KeptBy(s, p, t, f))).files, after)
    ensures f == S.NO_FAULTS ==> KeptBy(s, p, t, f) == {}
  {
    S.CleanupRemoves(t, f, s.now, hours, o);
    CleanupSweepsTo(t, f, S.Cutoff(s.now, hours), o);
    CleanupIsSweepStep(s, p, t, f, S.Without(t, f, S.Cutoff(s.now, hours), S.Elements(S.Places(t, f, o, o.entries))));
  }

  lemma StaleIsDoomed(s: State, p: Settings, t: S.Tree, place: S.Place)
    requires Shows(p, s.files, t) && Named(place) && PathOf(p, place) in s.files
    requires Stale(s.files[PathOf(p, place)], p, s.now)
    ensures S.Doomed(t, S.NO_FAULTS, s.now - p.retention, place)
  {
    assert Agrees(p, s.files, t, place);
  }

  lemma NothingKept(s: State, p: Settings, t: S.Tree)
    requires Shows(p, s.files, t)
    ensures KeptBy(s, p, t, S.NO_FAULTS) == {}
  {
    forall place: S.Place | Named(place) && PathOf(p, place) in s.files && Stale(s.files[PathOf(p, place)], p, s.now)
      ensures S.Doomed(t, S.NO_FAULTS, s.now - p.retention, place)
    {
      StaleIsDoomed(s, p, t, place);
    }
  }

  lemma SurvivesExactly(s: State, p: Settings, t: S.Tree, f: S.Faults, place: S.Place)
    requires Sensible(p) && Shows(p, s.files, t) && Named(place)
    ensures var path := PathOf(p, place);
            var left := Apply(s, p, Sweep(KeptBy(s, p, t, f))).files;
            path in left <==> path in s.files && !S.Doomed(t, f, s.now - p.retention, place)
  {
    var path := PathOf(p, place);
    assert Visited(p, path);
    assert Agrees(p, s.files, t, place);
    if path in KeptBy(s, p, t, f) {
      var other: S.Place :| Named(other) && path == PathOf(p, other) && !S.Doomed(t, f, s.now - p.retention, other);
      PathOfIsInjective(p, place, other);
    }
  }
}
