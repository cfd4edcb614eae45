/** `cleanupOldFiles`: the two-level sweep over a directory tree, with any file-system call failing anywhere. */
module Sweep {
  import opened Text

  /** What `stat` finds below a directory of the root. Times are in milliseconds. */
  datatype Leaf = File(size: nat, mtime: real) | NotRegular

  datatype Entry = Directory(files: map<string, Leaf>) | NotDirectory

  type Tree = map<string, Entry>

  type Place = (string, string)

  /** The calls that throw: listing the root, `stat` or listing of an entry, `stat` or `rm` of a file. */
  datatype Faults = Faults(
    root: bool, entryStat: set<string>, entryList: set<string>, fileStat: set<Place>, fileRm: set<Place>)

  const NO_FAULTS := Faults(false, {}, {}, {}, {})

  datatype CleanupResult = CleanupResult(scanned: nat, deleted: nat, bytesFreed: nat, errors: nat)

  /** The orders in which the directory listings come. */
  datatype Order = Order(entries: seq<string>, files: map<string, seq<string>>)

  function Cutoff(now: real, maxAgeHours: nat): real {
    now - maxAgeHours as real * 60.0 * 60.0 * 1000.0
  }

  predicate NoDuplicates<T(==)>(xs: seq<T>) {
    forall i, k :: 0 <= i < k < |xs| ==> xs[i] != xs[k]
  }

  ghost predicate Lists(xs: seq<string>, names: set<string>) {
    NoDuplicates(xs) && (forall x :: x in xs <==> x in names)
  }

  ghost predicate ValidOrder(t: Tree, o: Order) {
    && Lists(o.entries, t.Keys)
    && forall d :: d in t && t[d].Directory? ==> d in o.files && Lists(o.files[d], t[d].files.Keys)
  }

  predicate Visited(t: Tree, f: Faults, d: string) {
    !f.root && d in t && d !in f.entryStat && t[d].Directory? && d !in f.entryList
  }

  predicate Scanned(t: Tree, f: Faults, p: Place) {
    Visited(t, f, p.0) && p.1 in t[p.0].files
  }

  predicate Old(t: Tree, f: Faults, cutoff: real, p: Place) {
    Scanned(t, f, p) && p !in f.fileStat && t[p.0].files[p.1].File? && t[p.0].files[p.1].mtime < cutoff
  }

  /** The files the sweep removes: reachable, regular, strictly older than the cutoff, with `stat` and `rm` working. */
  predicate Doomed(t: Tree, f: Faults, cutoff: real, p: Place) {
    Old(t, f, cutoff, p) && p !in f.fileRm
  }

  predicate Failed(t: Tree, f: Faults, cutoff: real, p: Place) {
    Scanned(t, f, p) && (p in f.fileStat || (Old(t, f, cutoff, p) && p in f.fileRm))
  }

  predicate Young(t: Tree, f: Faults, cutoff: real, p: Place) {
    Scanned(t, f, p) && p !in f.fileStat && t[p.0].files[p.1].File? && t[p.0].files[p.1].mtime >= cutoff
  }

  predicate Irregular(t: Tree, f: Faults, p: Place) {
    Scanned(t, f, p) && p !in f.fileStat && t[p.0].files[p.1].NotRegular?
  }

  /** The tree without the doomed files among some places. */
  function Without(t: Tree, f: Faults, cutoff: real, places: set<Place>): Tree {
    map d | d in t ::
      if t[d].NotDirectory? then t[d]
      else Directory(map n | n in t[d].files && !((d, n) in places && Doomed(t, f, cutoff, (d, n))) :: t[d].files[n])
  }

  function SizeAt(t: Tree, p: Place): nat {
    if p.0 in t && t[p.0].Directory? && p.1 in t[p.0].files && t[p.0].files[p.1].File? then t[p.0].files[p.1].size else 0
  }

  function If(b: bool, n: nat): nat {
    if b then n else 0
  }

  function CountScanned(t: Tree, f: Faults): Place -> nat {
    (p: Place) => If(Scanned(t, f, p), 1)
  }

  function CountDeleted(t: Tree, f: Faults, cutoff: real): Place -> nat {
    (p: Place) => If(Doomed(t, f, cutoff, p), 1)
  }

  function CountBytes(t: Tree, f: Faults, cutoff: real): Place -> nat {
    (p: Place) => If(Doomed(t, f, cutoff, p), SizeAt(t, p))
  }

  function CountErrors(t: Tree, f: Faults, cutoff: real): Place -> nat {
    (p: Place) => If(Failed(t, f, cutoff, p), 1)
  }

  function CountYoung(t: Tree, f: Faults, cutoff: real): Place -> nat {
    (p: Place) => If(Young(t, f, cutoff, p), 1)
  }

  function CountIrregular(t: Tree, f: Faults): Place -> nat {
    (p: Place) => If(Irregular(t, f, p), 1)
  }

  /** The counters over some places. */
  function Tally(t: Tree, f: Faults, cutoff: real, places: seq<Place>): CleanupResult {
    CleanupResult(
      Total(places, CountScanned(t, f)), Total(places, CountDeleted(t, f, cutoff)),
      Total(places, CountBytes(t, f, cutoff)), Total(places, CountErrors(t, f, cutoff)))
  }

  function In(d: string, names: seq<string>): seq<Place> {
    seq(|names|, i requires 0 <= i < |names| => (d, names[i]))
  }

  /** The places visited, in order, when the root lists these entries. */
  function Places(t: Tree, f: Faults, o: Order, entries: seq<string>): seq<Place> {
    if entries == [] then []
    else
      var d := entries[|entries| - 1];
      Places(t, f, o, entries[..|entries| - 1])
      + if Visited(t, f, d) && d in o.files then In(d, o.files[d]) else []
  }

  function Elements<T>(xs: seq<T>): set<T> {
    set x | x in xs
  }

  /** Taking one more place into account changes at most that file. */
  lemma WithoutSnoc(t: Tree, f: Faults, cutoff: real, places: set<Place>, p: Place)
    requires p !in places && Scanned(t, f, p)
    ensures var now := Without(t, f, cutoff, places);
            var next := Without(t, f, cutoff, places + {p});
            && p.0 in now && now[p.0].Directory? && p.1 in now[p.0].files && now[p.0].files[p.1] == t[p.0].files[p.1]
            && (Doomed(t, f, cutoff, p) ==> next == now[p.0 := Directory(now[p.0].files - {p.1})])
            && (!Doomed(t, f, cutoff, p) ==> next == now)
  {
    var now := Without(t, f, cutoff, places);
    var next := Without(t, f, cutoff, places + {p});
    forall d | d in t && t[d].Directory?
      ensures next[d] == if Doomed(t, f, cutoff, p) && d == p.0 then Directory(now[d].files - {p.1}) else now[d]
    {
      forall n | n in t[d].files
        ensures n in next[d].files <==> n in now[d].files && !(Doomed(t, f, cutoff, p) && (d, n) == p)
      {
      }
      assert next[d].files == if Doomed(t, f, cutoff, p) && d == p.0 then now[d].files - {p.1} else now[d].files;
    }
  }

  /** One more file: what it is now, what becomes of the tree, and of the counters. */
  lemma NextFile(t: Tree, f: Faults, cutoff: real, done: seq<Place>, d: string, n: string)
    requires Scanned(t, f, (d, n)) && (d, n) !in done
    ensures var now := Without(t, f, cutoff, Elements(done));
            && d in now && now[d].Directory? && n in now[d].files && now[d].files[n] == t[d].files[n]
            && Without(t, f, cutoff, Elements(done + [(d, n)]))
               == if Doomed(t, f, cutoff, (d, n)) then now[d := Directory(now[d].files - {n})] else now
    ensures var a, doomed := Tally(t, f, cutoff, done), Doomed(t, f, cutoff, (d, n));
            Tally(t, f, cutoff, done + [(d, n)]) == CleanupResult(
              a.scanned + 1, a.deleted + If(doomed, 1), a.bytesFreed + If(doomed, SizeAt(t, (d, n))),
              a.errors + If(Failed(t, f, cutoff, (d, n)), 1))
  {
    WithoutSnoc(t, f, cutoff, Elements(done), (d, n));
    assert Elements(done + [(d, n)]) == Elements(done) + {(d, n)};
  }

  // What a cleanup does, without the sweep's own vocabulary.

  /** A directory of the root that can be found and listed. */
  predicate Reached(t: Tree, f: Faults, d: string) {
    !f.root && d in t && t[d].Directory? && d !in f.entryStat && d !in f.entryList
  }

  /** Everything listed in such directories. */
  function Reachable(t: Tree, f: Faults): set<Place> {
    set d, n | d in t && t[d].Directory? && n in t[d].files && Reached(t, f, d) :: (d, n)
  }

  /** A regular file whose `stat` works and which was last modified more than so many hours ago. */
  predicate TooOld(t: Tree, f: Faults, now: real, hours: nat, d: string, n: string)
    requires d in t && t[d].Directory? && n in t[d].files
  {
    (d, n) !in f.fileStat && t[d].files[n].File? && now - t[d].files[n].mtime > hours as real * 3600000.0
  }

  /** Exactly the files that are reachable, too old and removable are gone. */
  ghost predicate Cleaned(t: Tree, f: Faults, now: real, hours: nat, after: Tree) {
    && after.Keys == t.Keys
    && (forall d :: d in t ==> (after[d].Directory? <==> t[d].Directory?))
    && (forall d, n :: d in t && t[d].Directory? && n in t[d].files ==>
          (n !in after[d].files <==> Reached(t, f, d) && TooOld(t, f, now, hours, d, n) && (d, n) !in f.fileRm))
    && (forall d, n :: d in t && t[d].Directory? && n in after[d].files ==>
          n in t[d].files && after[d].files[n] == t[d].files[n])
  }

  function Removed(t: Tree, f: Faults, now: real, hours: nat): set<Place> {
    set d, n | d in t && t[d].Directory? && n in t[d].files && Reached(t, f, d)
               && TooOld(t, f, now, hours, d, n) && (d, n) !in f.fileRm :: (d, n)
  }

  function Unremovable(t: Tree, f: Faults, now: real, hours: nat): set<Place> {
    set d, n | d in t && t[d].Directory? && n in t[d].files && Reached(t, f, d)
               && ((d, n) in f.fileStat || (TooOld(t, f, now, hours, d, n) && (d, n) in f.fileRm)) :: (d, n)
  }

  function SizeIn(t: Tree): Place -> nat {
    (p: Place) => SizeAt(t, p)
  }

  /** The counters: what was reached, removed, and failed; and the bytes freed, which are what the tree lost. */
  ghost predicate CountsWhatItDid(t: Tree, f: Faults, now: real, hours: nat, after: Tree, result: CleanupResult) {
    && result.scanned == |Reachable(t, f)|
    && result.deleted == |Removed(t, f, now, hours)|
    && result.errors == |Unremovable(t, f, now, hours)|
    && forall places: seq<Place> :: NoDuplicates(places) && (forall p :: p in places <==> p in Reachable(t, f)) ==>
         Total(places, SizeIn(t)) == Total(places, SizeIn(after)) + result.bytesFreed
  }

  lemma CutoffIs(now: real, hours: nat, mtime: real)
    ensures mtime < Cutoff(now, hours) <==> now - mtime > hours as real * 3600000.0
  {
  }

  lemma DoomedMeans(t: Tree, f: Faults, now: real, hours: nat, d: string, n: string)
    requires d in t && t[d].Directory? && n in t[d].files
    ensures Scanned(t, f, (d, n)) <==> Reached(t, f, d)
    ensures Old(t, f, Cutoff(now, hours), (d, n)) <==> Reached(t, f, d) && TooOld(t, f, now, hours, d, n)
  {
    if t[d].files[n].File? {
      CutoffIs(now, hours, t[d].files[n].mtime);
    }
  }

  lemma {:induction false} CountIsCardinality(places: seq<Place>, f: Place -> nat)
    requires NoDuplicates(places) && forall p :: p in places ==> f(p) <= 1
    ensures Total(places, f) == |set p | p in places && f(p) == 1|
  {
    if places != [] {
      var front, last := places[..|places| - 1], places[|places| - 1];
      CountIsCardinality(front, f);
      assert places == front + [last];
      var before := set p | p in front && f(p) == 1;
      assert last !in front;
      if f(last) == 1 {
        assert (set p | p in places && f(p) == 1) == before + {last};
      } else {
        assert (set p | p in places && f(p) == 1) == before;
      }
    }
  }

  lemma CountOver(t: Tree, f: Faults, places: seq<Place>, count: Place -> nat, all: set<Place>)
    requires NoDuplicates(places) && (forall p :: p in places ==> count(p) <= 1)
    requires forall p :: p in all <==> p in places && count(p) == 1
    ensures Total(places, count) == |all|
  {
    CountIsCardinality(places, count);
    assert (set p | p in places && count(p) == 1) == all;
  }

  /** Bytes are conserved: over any places, what was there is what is left and what the removed files had. */
  lemma {:induction false} BytesConserved(t: Tree, f: Faults, cutoff: real, places: seq<Place>, over: set<Place>)
    requires forall p :: p in places ==> p in over && Scanned(t, f, p)
    ensures Total(places, SizeIn(t)) == Total(places, SizeIn(Without(t, f, cutoff, over))) + Total(places, CountBytes(t, f, cutoff))
  {
    if places != [] {
      var last := places[|places| - 1];
      BytesConserved(t, f, cutoff, places[..|places| - 1], over);
    }
  }

  lemma CleanupRemoves(t: Tree, f: Faults, now: real, hours: nat, o: Order)
    requires ValidOrder(t, o)
    ensures Cleaned(t, f, now, hours, Without(t, f, Cutoff(now, hours), Elements(Places(t, f, o, o.entries))))
  {
    SweepRemovesExactly(t, f, Cutoff(now, hours), o);
    forall d, n | d in t && t[d].Directory? && n in t[d].files
      ensures Doomed(t, f, Cutoff(now, hours), (d, n)) <==>
        Reached(t, f, d) && TooOld(t, f, now, hours, d, n) && (d, n) !in f.fileRm
    {
      DoomedMeans(t, f, now, hours, d, n);
    }
  }

  lemma PlaceMeans(t: Tree, f: Faults, now: real, hours: nat, o: Order, p: Place)
    requires ValidOrder(t, o)
    ensures p in Places(t, f, o, o.entries) <==> p in Reachable(t, f)
    ensures p in Removed(t, f, now, hours) <==> p in Reachable(t, f) && Doomed(t, f, Cutoff(now, hours), p)
    ensures p in Unremovable(t, f, now, hours) <==> p in Reachable(t, f) && Failed(t, f, Cutoff(now, hours), p)
    ensures p in Reachable(t, f) <==> Scanned(t, f, p)
  {
    PlacesExactly(t, f, o, o.entries);
    if p.0 in t && t[p.0].Directory? && p.1 in t[p.0].files {
      DoomedMeans(t, f, now, hours, p.0, p.1);
      assert p == (p.0, p.1);
    }
  }

  lemma CleanupCounts(t: Tree, f: Faults, now: real, hours: nat, o: Order)
    requires ValidOrder(t, o)
    ensures var cutoff, places := Cutoff(now, hours), Places(t, f, o, o.entries);
            CountsWhatItDid(t, f, now, hours, Without(t, f, cutoff, Elements(places)), Tally(t, f, cutoff, places))
  {
    var cutoff, places := Cutoff(now, hours), Places(t, f, o, o.entries);
    PlacesExactly(t, f, o, o.entries);
    forall p: Place
      ensures p in places <==> p in Reachable(t, f)
      ensures p in Removed(t, f, now, hours) <==> p in Reachable(t, f) && Doomed(t, f, cutoff, p)
      ensures p in Unremovable(t, f, now, hours) <==> p in Reachable(t, f) && Failed(t, f, cutoff, p)
      ensures p in Reachable(t, f) <==> Scanned(t, f, p)
    {
      PlaceMeans(t, f, now, hours, o, p);
    }
    CountOver(t, f, places, CountScanned(t, f), Reachable(t, f));
    CountOver(t, f, places, CountDeleted(t, f, cutoff), Removed(t, f, now, hours));
    CountOver(t, f, places, CountErrors(t, f, cutoff), Unremovable(t, f, now, hours));
    forall others: seq<Place> | NoDuplicates(others) && forall p :: p in others <==> p in Reachable(t, f)
      ensures Total(others, SizeIn(t))
           == Total(others, SizeIn(Without(t, f, cutoff, Elements(places)))) + Total(places, CountBytes(t, f, cutoff))
    {
      BytesConserved(t, f, cutoff, others, Elements(places));
      SameElements(others, places);
      TotalPermuted(others, places, CountBytes(t, f, cutoff));
    }
  }

  class Disk {
    var tree: Tree

    constructor (tree: Tree)
      ensures this.tree == tree
    {
      this.tree := tree;
    }

    /** One file of the inner loop, `result` being updated as the source does. */
    method SweepFile(d: string, name: string, cutoff: real, f: Faults, result: CleanupResult,
                     ghost before: Tree, ghost done: seq<Place>)
      returns (after: CleanupResult)
      requires Scanned(before, f, (d, name)) && (d, name) !in done
      requires tree == Without(before, f, cutoff, Elements(done)) && result == Tally(before, f, cutoff, done)
      modifies this
      ensures tree == Without(before, f, cutoff, Elements(done + [(d, name)]))
      ensures after == Tally(before, f, cutoff, done + [(d, name)])
    {
      NextFile(before, f, cutoff, done, d, name);
      after := result.(scanned := result.scanned + 1);
      if (d, name) in f.fileStat {
        after := after.(errors := after.errors + 1);
        return;
      }
      var stats := tree[d].files[name];
      if stats.NotRegular? || stats.mtime >= cutoff {
        return;
      }
      if (d, name) in f.fileRm {
        after := after.(errors := after.errors + 1);
        return;
      }
      tree := tree[d := Directory(tree[d].files - {name})];
      after := after.(deleted := after.deleted + 1, bytesFreed := after.bytesFreed + stats.size);
    }

    method SweepDirectory(d: string, names: seq<string>, cutoff: real, f: Faults, result: CleanupResult,
                          ghost before: Tree, ghost done: seq<Place>)
      returns (after: CleanupResult)
      requires Visited(before, f, d) && Lists(names, before[d].files.Keys) && forall n :: (d, n) !in done
      requires tree == Without(before, f, cutoff, Elements(done)) && result == Tally(before, f, cutoff, done)
      modifies this
      ensures tree == Without(before, f, cutoff, Elements(done + In(d, names)))
      ensures after == Tally(before, f, cutoff, done + In(d, names))
    {
      after := result;
      ghost var seen := done;
      for i := 0 to |names|
        invariant seen == done + In(d, names[..i])
        invariant tree == Without(before, f, cutoff, Elements(seen)) && after == Tally(before, f, cutoff, seen)
      {
        after := SweepFile(d, names[i], cutoff, f, after, before, seen);
        seen := seen + [(d, names[i])];
      }
      assert names[..|names|] == names;
    }

    /** The sweep, with no one else writing to the tree meanwhile. */
    method CleanupOldFiles(maxAgeHours: nat, now: real, f: Faults, o: Order) returns (result: CleanupResult)
      requires ValidOrder(tree, o)
      modifies this
      ensures var cutoff := Cutoff(now, maxAgeHours);
              var places := Places(old(tree), f, o, o.entries);
              && tree == Without(old(tree), f, cutoff, Elements(places))
              && result == Tally(old(tree), f, cutoff, places)
      ensures Cleaned(old(tree), f, now, maxAgeHours, tree)
      ensures CountsWhatItDid(old(tree), f, now, maxAgeHours, tree, result)
    {
      CleanupRemoves(tree, f, now, maxAgeHours, o);
      CleanupCounts(tree, f, now, maxAgeHours, o);
      var cutoff := Cutoff(now, maxAgeHours);
      result := CleanupResult(0, 0, 0, 0);
      ghost var before, seen := tree, [];
      WithoutNothing(before, f, cutoff);
      if f.root {
        NothingVisited(before, f, o, o.entries);
        assert seen == Places(before, f, o, o.entries);
        return;
      }
      for i := 0 to |o.entries|
        invariant seen == Places(before, f, o, o.entries[..i])
        invariant tree == Without(before, f, cutoff, Elements(seen)) && result == Tally(before, f, cutoff, seen)
      {
        var d := o.entries[i];
        NextDirectory(before, f, o, i);
        if d !in f.entryStat && tree[d].Directory? && d !in f.entryList {
          result := SweepDirectory(d, o.files[d], cutoff, f, result, before, seen);
          seen := seen + In(d, o.files[d]);
        }
      }
      assert o.entries[..|o.entries|] == o.entries;
    }
  }

  lemma NextDirectory(t: Tree, f: Faults, o: Order, i: nat)
    requires ValidOrder(t, o) && i < |o.entries|
    ensures var d, seen := o.entries[i], Places(t, f, o, o.entries[..i]);
            && (forall n :: (d, n) !in seen)
            && Places(t, f, o, o.entries[..i + 1]) == if Visited(t, f, d) then seen + In(d, o.files[d]) else seen
  {
    assert o.entries[..i + 1][..i] == o.entries[..i];
    PlacesExactly(t, f, o, o.entries[..i]);
    assert o.entries[i] !in o.entries[..i];
  }

  lemma WithoutNothing(t: Tree, f: Faults, cutoff: real)
    ensures Without(t, f, cutoff, Elements<Place>([])) == t
    ensures Tally(t, f, cutoff, []) == CleanupResult(0, 0, 0, 0)
  {
    forall d | d in t && t[d].Directory?
      ensures Without(t, f, cutoff, Elements<Place>([]))[d] == t[d]
    {
      assert Without(t, f, cutoff, Elements<Place>([]))[d].files == t[d].files;
    }
  }

  lemma {:induction false} NothingVisited(t: Tree, f: Faults, o: Order, entries: seq<string>)
    requires f.root
    ensures Places(t, f, o, entries) == []
  {
    if entries != [] {
      NothingVisited(t, f, o, entries[..|entries| - 1]);
    }
  }

  lemma InExactly(d: string, names: seq<string>)
    ensures forall p: Place :: p in In(d, names) <==> p.0 == d && p.1 in names
  {
    forall p: Place | p.0 == d && p.1 in names
      ensures p in In(d, names)
    {
      var i :| 0 <= i < |names| && names[i] == p.1;
      assert In(d, names)[i] == p;
    }
  }

  lemma {:induction false} PlacesExactly(t: Tree, f: Faults, o: Order, entries: seq<string>)
    requires forall d :: d in t && t[d].Directory? ==> d in o.files && Lists(o.files[d], t[d].files.Keys)
    requires NoDuplicates(entries)
    ensures forall p :: p in Places(t, f, o, entries) <==> Scanned(t, f, p) && p.0 in entries
    ensures NoDuplicates(Places(t, f, o, entries))
  {
    if entries != [] {
      var front, d := entries[..|entries| - 1], entries[|entries| - 1];
      PlacesExactly(t, f, o, front);
      assert entries == front + [d];
      if Visited(t, f, d) && d in o.files {
        InExactly(d, o.files[d]);
        assert NoDuplicates(In(d, o.files[d]));
        assert d !in front;
      }
    }
  }

  /** Exactness: precisely the doomed files go, everything else stays as it was. */
  lemma SweepRemovesExactly(t: Tree, f: Faults, cutoff: real, o: Order)
    requires ValidOrder(t, o)
    ensures var after := Without(t, f, cutoff, Elements(Places(t, f, o, o.entries)));
            && after.Keys == t.Keys
            && (forall d :: d in t ==> (after[d].Directory? <==> t[d].Directory?))
            && (forall d, n :: d in t && t[d].Directory? && n in t[d].files ==>
                  (n !in after[d].files <==> Doomed(t, f, cutoff, (d, n))))
            && (forall d, n :: d in t && t[d].Directory? && n in after[d].files ==>
                  n in t[d].files && after[d].files[n] == t[d].files[n])
  {
    PlacesExactly(t, f, o, o.entries);
  }

  lemma {:induction false} CountsAddUp(t: Tree, f: Faults, cutoff: real, places: seq<Place>)
    ensures Total(places, CountScanned(t, f))
         == Total(places, CountDeleted(t, f, cutoff)) + Total(places, CountErrors(t, f, cutoff))
          + Total(places, CountYoung(t, f, cutoff)) + Total(places, CountIrregular(t, f))
  {
    if places != [] {
      CountsAddUp(t, f, cutoff, places[..|places| - 1]);
    }
  }

  lemma {:induction false} SameElements<T>(xs: seq<T>, ys: seq<T>)
    requires NoDuplicates(xs) && NoDuplicates(ys) && forall x :: x in xs <==> x in ys
    ensures multiset(xs) == multiset(ys)
  {
    forall x
      ensures multiset(xs)[x] == multiset(ys)[x]
    {
      OccursOnce(xs, x);
      OccursOnce(ys, x);
    }
  }

  lemma {:induction false} OccursOnce<T>(xs: seq<T>, x: T)
    requires NoDuplicates(xs)
    ensures multiset(xs)[x] == if x in xs then 1 else 0
  {
    if xs != [] {
      OccursOnce(xs[..|xs| - 1], x);
      assert xs == xs[..|xs| - 1] + [xs[|xs| - 1]];
    }
  }

  /** The counters do not depend on the order the directories list their entries in. */
  lemma OrderDoesNotMatter(t: Tree, f: Faults, cutoff: real, a: Order, b: Order)
    requires ValidOrder(t, a) && ValidOrder(t, b)
    ensures Tally(t, f, cutoff, Places(t, f, a, a.entries)) == Tally(t, f, cutoff, Places(t, f, b, b.entries))
  {
    var p, q := Places(t, f, a, a.entries), Places(t, f, b, b.entries);
    PlacesExactly(t, f, a, a.entries);
    PlacesExactly(t, f, b, b.entries);
    SameElements(p, q);
    TotalPermuted(p, q, CountScanned(t, f));
    TotalPermuted(p, q, CountDeleted(t, f, cutoff));
    TotalPermuted(p, q, CountBytes(t, f, cutoff));
    TotalPermuted(p, q, CountErrors(t, f, cutoff));
  }

  /** After a fault-free sweep a second one with the same cutoff finds nothing to delete. */
  lemma SecondSweepDeletesNothing(t: Tree, cutoff: real, o: Order, again: Order)
    requires ValidOrder(t, o)
    requires ValidOrder(Without(t, NO_FAULTS, cutoff, Elements(Places(t, NO_FAULTS, o, o.entries))), again)
    ensures var after := Without(t, NO_FAULTS, cutoff, Elements(Places(t, NO_FAULTS, o, o.entries)));
            var second := Tally(after, NO_FAULTS, cutoff, Places(after, NO_FAULTS, again, again.entries));
            && (forall p :: !Doomed(after, NO_FAULTS, cutoff, p))
            && second.deleted == 0 && second.bytesFreed == 0 && second.errors == 0
            && Without(after, NO_FAULTS, cutoff, Elements(Places(after, NO_FAULTS, again, again.entries))) == after
  {
    var after := Without(t, NO_FAULTS, cutoff, Elements(Places(t, NO_FAULTS, o, o.entries)));
    SweepRemovesExactly(t, NO_FAULTS, cutoff, o);
    forall p: Place
      ensures !Doomed(after, NO_FAULTS, cutoff, p)
    {
      if Scanned(after, NO_FAULTS, p) {
        assert after[p.0].files[p.1] == t[p.0].files[p.1];
      }
    }
    NothingDoomed(after, cutoff, Places(after, NO_FAULTS, again, again.entries));
  }

  lemma NothingDoomed(t: Tree, cutoff: real, places: seq<Place>)
    requires forall p :: !Doomed(t, NO_FAULTS, cutoff, p)
    ensures var counts := Tally(t, NO_FAULTS, cutoff, places);
            counts.deleted == 0 && counts.bytesFreed == 0 && counts.errors == 0
    ensures Without(t, NO_FAULTS, cutoff, Elements(places)) == t
  {
    AllZero(places, CountDeleted(t, NO_FAULTS, cutoff));
    AllZero(places, CountBytes(t, NO_FAULTS, cutoff));
    AllZero(places, CountErrors(t, NO_FAULTS, cutoff));
    var same := Without(t, NO_FAULTS, cutoff, Elements(places));
    forall d | d in t && t[d].Directory?
      ensures same[d] == t[d]
    {
      assert same[d].files == t[d].files;
    }
  }

  lemma {:induction false} AllZero<T>(xs: seq<T>, f: T -> nat)
    requires forall x :: x in xs ==> f(x) == 0
    ensures Total(xs, f) == 0
  {
    if xs != [] {
      AllZero(xs[..|xs| - 1], f);
    }
  }
}
