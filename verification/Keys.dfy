/** File names as submitted, the display names kept of them, and the storage keys generated for files. */
module Keys {
  import opened Wrappers
  import opened Text
  import opened Paths

  predicate IsBreak(c: char) {
    c == '\n' || c == '\r' || c == '\U{2028}' || c == '\U{2029}'
  }

  predicate IsSeparator(c: char) {
    c == '/' || c == '\\'
  }

  predicate IsControl(c: char) {
    c <= '\U{001F}' || c == '\U{007F}'
  }

  predicate IsReserved(c: char) {
    c == '<' || c == '>' || c == ':' || c == '\"' || c == '|' || c == '?' || c == '*'
  }

  /** Position of the first line terminator, which the stripping pattern's dot does not cross. */
  function FirstBreak(s: string): (n: nat)
    ensures n <= |s| && (n < |s| ==> IsBreak(s[n]))
    ensures forall i :: 0 <= i < n ==> !IsBreak(s[i])
  {
    if s == "" || IsBreak(s[0]) then 0 else 1 + FirstBreak(s[1..])
  }

  /** Position just after the last separator, or zero. */
  function AfterSeparator(s: string): (n: nat)
    ensures n <= |s| && (n > 0 ==> IsSeparator(s[n - 1]))
    ensures forall i :: n <= i < |s| ==> !IsSeparator(s[i])
  {
    if s == "" || IsSeparator(s[|s| - 1]) then |s| else AfterSeparator(s[..|s| - 1])
  }

  /** Where the stripping pattern stops. */
  function StripPoint(name: string): (n: nat)
    ensures n <= |name|
  {
    AfterSeparator(name[..FirstBreak(name)])
  }

  function StripPath(name: string): string {
    name[StripPoint(name)..]
  }

  function DropControls(s: string): string {
    if s == "" then "" else (if IsControl(s[0]) then "" else [s[0]]) + DropControls(s[1..])
  }

  function MaskReserved(s: string): string {
    if s == "" then "" else [if IsReserved(s[0]) then '_' else s[0]] + MaskReserved(s[1..])
  }

  function Cleaned(name: string): string {
    Trim(MaskReserved(DropControls(StripPath(name))))
  }

  function SanitizeFilename(name: string): string {
    var cleaned := Cleaned(name);
    var safe := if |cleaned| > 0 then cleaned else "unnamed";
    Take(safe, 255)
  }

  predicate Harmless(c: char) {
    !IsControl(c) && !IsReserved(c)
  }

  predicate HasSeparator(s: string) {
    exists i :: 0 <= i < |s| && IsSeparator(s[i])
  }

  lemma {:induction false} ScrubbedIsHarmless(s: string)
    ensures forall c :: c in MaskReserved(DropControls(s)) ==> Harmless(c)
    ensures HasSeparator(MaskReserved(DropControls(s))) <==> HasSeparator(s)
  {
    if s != "" {
      ScrubbedIsHarmless(s[1..]);
      var rest := MaskReserved(DropControls(s[1..]));
      var all := MaskReserved(DropControls(s));
      if IsControl(s[0]) {
        assert DropControls(s) == DropControls(s[1..]);
        assert HasSeparator(s) <==> HasSeparator(s[1..]) by {
          HasSeparatorCons(s[0], s[1..]);
        }
      } else {
        var c := if IsReserved(s[0]) then '_' else s[0];
        assert DropControls(s) == [s[0]] + DropControls(s[1..]);
        assert DropControls(s)[1..] == DropControls(s[1..]);
        assert all == [c] + rest;
        HasSeparatorCons(c, rest);
        HasSeparatorCons(s[0], s[1..]);
      }
      assert s == [s[0]] + s[1..];
    }
  }

  lemma HasSeparatorCons(c: char, s: string)
    ensures HasSeparator([c] + s) <==> IsSeparator(c) || HasSeparator(s)
  {
    var all := [c] + s;
    if IsSeparator(c) {
      assert IsSeparator(all[0]);
    }
    if i :| 0 <= i < |s| && IsSeparator(s[i]) {
      assert IsSeparator(all[i + 1]);
    }
  }

  lemma TrimKeepsSeparators(s: string)
    ensures HasSeparator(Trim(s)) <==> HasSeparator(s)
    ensures forall c :: c in Trim(s) ==> c in s
  {
    var from, to := TrimParts(s);
    if i :| 0 <= i < |s| && IsSeparator(s[i]) {
      assert from <= i < to && Trim(s)[i - from] == s[i];
    }
  }

  /** A separator that stands after a line terminator, where the stripping pattern cannot reach it. */
  predicate BrokenPath(name: string) {
    exists i, k :: 0 <= i < k < |name| && IsBreak(name[i]) && IsSeparator(name[k])
  }

  /** A separator past the stripping point has a line terminator before it. */
  lemma BreakBefore(name: string, k: nat)
    requires StripPoint(name) <= k < |name| && IsSeparator(name[k])
    ensures BrokenPath(name)
  {
    assert k != FirstBreak(name);
    assert IsBreak(name[FirstBreak(name)]);
  }

  /**
   * A display name is 1 to 255 characters, free of control and reserved characters. The cleaned name holds a
   * separator exactly if the submitted name had one after a line terminator, and the cut keeps those that
   * stand among its first 255 characters.
   */
  lemma SanitizedShape(name: string)
    ensures var r := SanitizeFilename(name);
            && 1 <= |r| <= 255
            && (forall c :: c in r ==> Harmless(c))
            && (forall i :: 0 <= i < |r| && IsSeparator(r[i]) ==> i < |Cleaned(name)| && r[i] == Cleaned(name)[i])
            && (forall i :: 0 <= i < |Cleaned(name)| && i < 255 && IsSeparator(Cleaned(name)[i]) ==>
                  i < |r| && r[i] == Cleaned(name)[i])
            && (HasSeparator(r) ==> BrokenPath(name))
    ensures HasSeparator(Cleaned(name)) <==> BrokenPath(name)
  {
    CleanedShape(name);
    if Cleaned(name) == "" {
      UnnamedIsPlain(SanitizeFilename(name));
    } else {
      FrontShape(SanitizeFilename(name), Cleaned(name));
    }
  }

  lemma CleanedShape(name: string)
    ensures forall c :: c in Cleaned(name) ==> Harmless(c)
    ensures HasSeparator(Cleaned(name)) <==> BrokenPath(name)
  {
    var stripped := StripPath(name);
    ScrubbedIsHarmless(stripped);
    TrimKeepsSeparators(MaskReserved(DropControls(stripped)));
  }

  lemma UnnamedIsPlain(r: string)
    requires r == "unnamed"
    ensures !HasSeparator(r) && forall c :: c in r ==> Harmless(c)
  {
  }

  lemma FrontShape(r: string, all: string)
    requires |r| <= |all| && forall i :: 0 <= i < |r| ==> r[i] == all[i]
    requires forall c :: c in all ==> Harmless(c)
    ensures forall c :: c in r ==> Harmless(c)
    ensures HasSeparator(r) ==> HasSeparator(all)
  {
    if i :| 0 <= i < |r| && IsSeparator(r[i]) {
      assert IsSeparator(all[i]);
    }
  }

  /** How many characters trimming takes off the front. */
  function Lead(s: string): nat {
    |s| - |TrimStart(s)|
  }

  /** Where the k-th character of the submitted name comes to stand if it is kept: the kept characters before it, less the white space trimmed. */
  function Landing(name: string, k: nat): int
    requires StripPoint(name) <= k <= |name|
  {
    |DropControls(name[StripPoint(name)..k])| - Lead(MaskReserved(DropControls(StripPath(name))))
  }

  /** A separator the stripping pattern cannot reach, before which fewer than 255 characters are kept. */
  predicate Survives(name: string, k: nat) {
    StripPoint(name) <= k < |name| && IsSeparator(name[k]) && Landing(name, k) < 255
  }

  lemma {:induction false} MaskReservedAt(s: string, i: nat)
    requires i < |s|
    ensures |MaskReserved(s)| == |s| && MaskReserved(s)[i] == if IsReserved(s[i]) then '_' else s[i]
  {
    if i > 0 {
      MaskReservedAt(s[1..], i - 1);
    } else if |s| > 1 {
      MaskReservedAt(s[1..], 0);
    }
  }

  lemma {:induction false} DropControlsKeeps(s: string, k: nat)
    requires k < |s| && !IsControl(s[k])
    ensures |DropControls(s[..k])| < |DropControls(s)| && DropControls(s)[|DropControls(s[..k])|] == s[k]
  {
    if k > 0 {
      DropControlsKeeps(s[1..], k - 1);
      assert s[..k][0] == s[0] && s[..k][1..] == s[1..][..k - 1];
    }
  }

  lemma {:induction false} DropControlsFrom(s: string, p: nat) returns (k: nat)
    requires p < |DropControls(s)|
    ensures k < |s| && !IsControl(s[k]) && s[k] == DropControls(s)[p] && |DropControls(s[..k])| == p
  {
    if IsControl(s[0]) {
      var j := DropControlsFrom(s[1..], p);
      k := j + 1;
      assert s[..k][0] == s[0] && s[..k][1..] == s[1..][..k - 1];
    } else if p == 0 {
      k := 0;
    } else {
      var j := DropControlsFrom(s[1..], p - 1);
      k := j + 1;
      assert s[..k][0] == s[0] && s[..k][1..] == s[1..][..k - 1];
    }
  }

  /** A separator of the submitted name past the stripping point is in the cleaned name, where it lands. */
  lemma SeparatorLands(name: string, k: nat)
    requires StripPoint(name) <= k < |name| && IsSeparator(name[k])
    ensures 0 <= Landing(name, k) < |Cleaned(name)| && Cleaned(name)[Landing(name, k)] == name[k]
  {
    PrintingLands(name, k);
  }

  /** And every separator of the cleaned name is one of those. */
  lemma SeparatorComesFrom(name: string, i: nat) returns (k: nat)
    requires i < |Cleaned(name)| && IsSeparator(Cleaned(name)[i])
    ensures StripPoint(name) <= k < |name| && name[k] == Cleaned(name)[i] && Landing(name, k) == i
  {
    k := CleanedComesFrom(name, i);
  }

  lemma {:induction false} MaskReservedLength(s: string)
    ensures |MaskReserved(s)| == |s|
  {
    if s != "" {
      MaskReservedLength(s[1..]);
    }
  }

  lemma TrimKeepsAt(s: string, p: nat)
    requires p < |s| && !IsSpace(s[p])
    ensures Lead(s) <= p && p - Lead(s) < |Trim(s)| && Trim(s)[p - Lead(s)] == s[p]
  {
    var from := TrimStartParts(s);
    var n := TrimEndParts(s[from..]);
    assert s[from..][p - from] == s[p];
  }

  lemma TrimmedFrom(s: string, i: nat) returns (p: nat)
    requires i < |Trim(s)|
    ensures p < |s| && p == i + Lead(s) && s[p] == Trim(s)[i]
  {
    var from := TrimStartParts(s);
    var n := TrimEndParts(s[from..]);
    p := from + i;
  }

  /** What a kept character becomes. */
  function Masked(c: char): char {
    if c == '<' || c == '>' || c == ':' || c == '\"' || c == '|' || c == '?' || c == '*' then '_' else c
  }

  /** Every printing character past the stripping point is in the cleaned name, where it lands, an underscore if it is reserved. */
  lemma PrintingLands(name: string, k: nat)
    requires StripPoint(name) <= k < |name| && name[k] > '\U{001F}' && name[k] != '\U{007F}' && !IsSpace(name[k])
    ensures 0 <= Landing(name, k) < |Cleaned(name)| && Cleaned(name)[Landing(name, k)] == Masked(name[k])
  {
    var rest, n := StripPath(name), StripPoint(name);
    assert rest[..k - n] == name[n..k] && rest[k - n] == name[k];
    ScrubbedLands(rest, k - n);
    TrimKeepsAt(MaskReserved(DropControls(rest)), |DropControls(rest[..k - n])|);
  }

  lemma ScrubbedLands(s: string, k: nat)
    requires k < |s| && s[k] > '\U{001F}' && s[k] != '\U{007F}' && !IsSpace(s[k])
    ensures var p, scrubbed := |DropControls(s[..k])|, MaskReserved(DropControls(s));
            p < |scrubbed| && scrubbed[p] == Masked(s[k]) && !IsSpace(scrubbed[p])
  {
    DropControlsKeeps(s, k);
    MaskReservedAt(DropControls(s), |DropControls(s[..k])|);
  }

  /** And the cleaned name holds nothing else: each of its characters is one of the submitted name past that point. */
  lemma CleanedComesFrom(name: string, i: nat) returns (k: nat)
    requires i < |Cleaned(name)|
    ensures StripPoint(name) <= k < |name| && name[k] > '\U{001F}' && name[k] != '\U{007F}'
    ensures Cleaned(name)[i] == Masked(name[k]) && Landing(name, k) == i
  {
    var rest, n := StripPath(name), StripPoint(name);
    var dropped := DropControls(rest);
    var p := TrimmedFrom(MaskReserved(dropped), i);
    MaskReservedLength(dropped);
    MaskReservedAt(dropped, p);
    var j := DropControlsFrom(rest, p);
    k := n + j;
    assert rest[..j] == name[n..k] && rest[j] == name[k];
  }

  /** Of the submitted name itself: a display name holds a separator exactly if one of those it was given survives. */
  lemma SeparatorSurvivesExactly(name: string)
    ensures HasSeparator(SanitizeFilename(name)) <==> exists k :: Survives(name, k)
  {
    var r, c := SanitizeFilename(name), Cleaned(name);
    if k :| Survives(name, k) {
      SeparatorLands(name, k);
      assert IsSeparator(r[Landing(name, k)]);
    }
    if i :| 0 <= i < |r| && IsSeparator(r[i]) {
      var k := SeparatorComesFrom(name, i);
      assert Survives(name, k);
    }
  }

  /** A line terminator lets a directory separator through. */
  lemma SeparatorCanSurvive(name: string)
    requires name == "a\n/b"
    ensures SanitizeFilename(name) == "a/b"
  {
    NothingToStrip(name);
    BreakIsScrubbed(name);
    LettersAreTight("a/b");
  }

  lemma LettersAreTight(s: string)
    requires s != "" && 'a' <= s[0] <= 'z' && 'a' <= s[|s| - 1] <= 'z'
    ensures Tight(s)
  {
  }

  lemma BreakIsScrubbed(name: string)
    requires name == "a\n/b"
    ensures MaskReserved(DropControls(name)) == "a/b"
  {
    var afterA, afterBreak, last := name[1..], name[2..], name[3..];
    assert name == ['a'] + afterA && afterA == ['\n'] + afterBreak && afterBreak == ['/'] + last && last == ['b'] + [];
    ScrubCons('a', afterA);
    ScrubCons('\n', afterBreak);
    ScrubCons('/', last);
    ScrubCons('b', []);
  }

  lemma NothingToStrip(name: string)
    requires name == "a\n/b"
    ensures StripPath(name) == name
  {
    assert !IsBreak(name[0]) && IsBreak(name[1]) && FirstBreak(name) == 1;
    var front := name[..1];
    assert !IsSeparator(front[0]) && front[..0] == [] && AfterSeparator(front) == 0;
  }

  lemma ScrubCons(c: char, s: string)
    ensures MaskReserved(DropControls([c] + s))
         == (if IsControl(c) then "" else [if IsReserved(c) then '_' else c]) + MaskReserved(DropControls(s))
  {
    assert ([c] + s)[1..] == s && "" + DropControls(s) == DropControls(s);
    assert "" + MaskReserved(DropControls(s)) == MaskReserved(DropControls(s));
    assert ([c] + DropControls(s))[1..] == DropControls(s);
  }

  // Keys.

  /** `path.extname`: from the last dot of the last component, unless that dot starts it or it is "..". */
  function LastComponent(path: string): string {
    if path == "" then ""
    else if path[|path| - 1] == '/' then LastComponent(path[..|path| - 1])
    else AfterSlash(path)
  }

  function AfterSlash(s: string): (r: string)
    ensures '/' !in r
  {
    if s == "" || s[|s| - 1] == '/' then "" else AfterSlash(s[..|s| - 1]) + [s[|s| - 1]]
  }

  /** Position of the last dot, or the length. */
  function LastDot(s: string): (n: nat)
    ensures n <= |s| && (n < |s| ==> s[n] == '.')
    ensures forall i :: n < i < |s| ==> s[i] != '.'
    ensures n == |s| ==> '.' !in s
  {
    if s == "" then 0
    else if s[|s| - 1] == '.' then |s| - 1
    else
      var n := LastDot(s[..|s| - 1]);
      if n == |s| - 1 then |s| else n
  }

  function ExtName(path: string): string {
    var base := LastComponent(path);
    var d := LastDot(base);
    if d == |base| || d == 0 || base == ".." then "" else base[d..]
  }

  predicate IsUuid(id: string) {
    |id| == 36 && forall c :: c in id ==> c == '-' || '0' <= c <= '9' || 'a' <= c <= 'f'
  }

  function StorageKeyFor(originalName: string, uuid: string, lower: string -> string): string {
    "uploads/" + uuid + Take(lower(ExtName(originalName)), 10)
  }

  /** The name without its last extension, if something follows the last dot. */
  function Stem(name: string): string {
    var d := LastDot(name);
    if d + 1 < |name| then name[..d] else name
  }

  function OutputKey(base: string, suffix: string, uuid: string, ext: string): string {
    "outputs/" + (base + "-" + suffix + "-" + Take(uuid, 8) + ext)
  }

  function CsvOutputKey(originalName: string, suffix: string, uuid: string, ext: string): string {
    OutputKey(Take(Stem(originalName), 40), suffix, uuid, ext)
  }

  function StripUploads(key: string): string {
    if "uploads/" <= key then key[8..] else key
  }

  /** `replace` with a string pattern: the first occurrence goes. */
  function RemoveFirst(s: string, pattern: string): (r: string)
    ensures forall c :: c in r ==> c in s
  {
    if pattern <= s then s[|pattern|..]
    else if s == "" then s
    else [s[0]] + RemoveFirst(s[1..], pattern)
  }

  function ImageOutputKey(originalKey: string, suffix: string, uuid: string, ext: string): string {
    OutputKey(RemoveFirst(StripUploads(originalKey), ExtName(originalKey)), suffix, uuid, ext)
  }

  /** A key of a directory and one plain name lands exactly two components below the root. */
  lemma TwoBelowRoot(root: Segments, dir: string, name: string)
    requires Clean(root) && root != [] && CleanSegment(dir) && CleanSegment(name)
    ensures PathFor(Absolute(root), dir + "/" + name) == Some(Absolute(root + [dir, name]))
  {
    SplitConcat(dir, name);
    SplitPlain(dir);
    SplitPlain(name);
    assert [dir] + [name] == [dir, name];
    ResolvedClean(root, [dir, name]);
    PathForIsContained(root, dir + "/" + name);
  }

  ghost predicate LandsTwoBelow(root: Segments, key: string, dir: string) {
    exists name :: CleanSegment(name) && key == dir + "/" + name && PathFor(Absolute(root), key) == Some(Absolute(root + [dir, name]))
  }

  lemma ExtNameIsPlain(path: string)
    ensures '/' !in ExtName(path)
  {
    LastComponentIsPlain(path);
  }

  lemma {:induction false} LastComponentIsPlain(path: string)
    ensures '/' !in LastComponent(path)
  {
    if path != "" && path[|path| - 1] == '/' {
      LastComponentIsPlain(path[..|path| - 1]);
    }
  }

  /** Every upload key is accepted and lands where the sweep looks, whatever the submitted name. */
  lemma UploadKeyIsSweepable(root: Segments, name: string, uuid: string, lower: string -> string)
    requires Clean(root) && root != [] && IsUuid(uuid)
    requires forall s :: '/' !in s ==> '/' !in lower(s)
    ensures LandsTwoBelow(root, StorageKeyFor(SanitizeFilename(name), uuid, lower), "uploads")
  {
    ExtNameIsPlain(SanitizeFilename(name));
    var ext := Take(lower(ExtName(SanitizeFilename(name))), 10);
    var file := uuid + ext;
    assert '/' !in file && |file| >= 36;
    assert StorageKeyFor(SanitizeFilename(name), uuid, lower) == "uploads" + "/" + file;
    TwoBelowRoot(root, "uploads", file);
  }

  /** The key is accepted and names a file exactly two components below the root, where the sweep looks. */
  ghost predicate Sweepable(root: Segments, key: string) {
    exists dir, name :: CleanSegment(dir) && CleanSegment(name)
                        && PathFor(Absolute(root), key) == Some(Absolute(root + [dir, name]))
  }

  function Stuck(parts: Segments, tail: string): Segments
    requires parts != []
  {
    parts[..|parts| - 1] + [parts[|parts| - 1] + tail]
  }

  /** Text without a separator sticks to the last component of a path. */
  lemma {:induction false} SplitAppend(base: string, tail: string)
    requires '/' !in tail
    ensures Split(base + tail) == Stuck(Split(base), tail)
  {
    if base == "" {
      SplitPlain(tail);
      assert base + tail == tail;
    } else {
      SplitAppend(base[1..], tail);
      assert (base + tail)[1..] == base[1..] + tail;
      StuckUnderChar(base[0], Split(base[1..]), tail);
    }
  }

  lemma StuckUnderChar(c: char, parts: Segments, tail: string)
    requires parts != []
    ensures var more := Stuck(parts, tail);
            [[c] + more[0]] + more[1..] == Stuck([[c] + parts[0]] + parts[1..], tail)
  {
    if |parts| == 1 {
      assert [c] + (parts[0] + tail) == [c] + parts[0] + tail;
    } else {
      assert Stuck(parts, tail)[1..] == parts[1..][..|parts| - 2] + [parts[|parts| - 1] + tail];
    }
  }

  /** The directory an output key leads to, the components of the name before its last separator being followed. */
  function OutputDir(root: Segments, base: string): Segments {
    var parts := Split(base);
    Resolved(root + ["outputs"], parts[..|parts| - 1])
  }

  /** The file name an output key ends in. */
  function OutputName(base: string, tail: string): string {
    var parts := Split(base);
    parts[|parts| - 1] + tail
  }

  predicate Tail(tail: string) {
    '/' !in tail && '-' in tail
  }

  lemma TailedIsClean(last: string, tail: string)
    requires '/' !in last && Tail(tail)
    ensures CleanSegment(last + tail)
  {
    var i :| 0 <= i < |tail| && tail[i] == '-';
    assert (last + tail)[|last| + i] == '-';
  }

  lemma OutputSplits(base: string, tail: string)
    requires Tail(tail)
    ensures Split("outputs/" + (base + tail)) == ["outputs"] + Stuck(Split(base), tail)
  {
    SplitAppend(base, tail);
    assert "outputs/" + (base + tail) == "outputs" + "/" + (base + tail);
    SplitConcat("outputs", base + tail);
    SplitPlain("outputs");
  }

  lemma ResolvedLast(root: Segments, dirs: Segments, name: string)
    requires CleanSegment(name)
    ensures Resolved(root, ["outputs"] + (dirs + [name])) == Resolved(root + ["outputs"], dirs) + [name]
  {
    ResolvedConcat(root, ["outputs"], dirs + [name]);
    ResolvedConcat(root + ["outputs"], dirs, [name]);
    assert CleanSegment("outputs");
  }

  /** Where any output key resolves, whatever separators its name kept. */
  lemma OutputResolves(root: Segments, base: string, tail: string)
    requires Clean(root) && Tail(tail)
    ensures Resolved(root, Split("outputs/" + (base + tail))) == OutputDir(root, base) + [OutputName(base, tail)]
    ensures CleanSegment(OutputName(base, tail)) && Clean(OutputDir(root, base))
  {
    var parts := Split(base);
    TailedIsClean(parts[|parts| - 1], tail);
    OutputSplits(base, tail);
    ResolvedLast(root, parts[..|parts| - 1], OutputName(base, tail));
    assert CleanSegment("outputs");
    ResolvedIsClean(root + ["outputs"], parts[..|parts| - 1]);
  }

  /**
   * An output key made of any name lands where the sweep looks exactly if following the name's own
   * components from the output directory ends one component below the root.
   */
  lemma OutputSweptExactly(root: Segments, base: string, tail: string)
    requires Clean(root) && root != [] && Tail(tail)
    ensures Sweepable(root, "outputs/" + (base + tail))
       <==> root <= OutputDir(root, base) && |OutputDir(root, base)| == |root| + 1
  {
    OutputResolves(root, base, tail);
    PathForIsContained(root, "outputs/" + (base + tail));
    SweptDepth(root, "outputs/" + (base + tail), OutputDir(root, base), OutputName(base, tail));
  }

  lemma SweptDepth(root: Segments, key: string, dir: Segments, name: string)
    requires Clean(root) && Clean(dir) && CleanSegment(name)
    requires PathFor(Absolute(root), key) == if root <= dir + [name] then Some(Absolute(dir + [name])) else None
    ensures Sweepable(root, key) <==> root <= dir && |dir| == |root| + 1
  {
    if root <= dir && |dir| == |root| + 1 {
      OneFurther(root, dir, name);
      assert Sweepable(root, key);
    }
    if Sweepable(root, key) {
      var d, n :| CleanSegment(d) && CleanSegment(n) && PathFor(Absolute(root), key) == Some(Absolute(root + [d, n]));
      TwoFurther(root, d, n, dir, name);
    }
  }

  lemma OneFurther(root: Segments, dir: Segments, name: string)
    requires Clean(dir) && root <= dir && |dir| == |root| + 1
    ensures CleanSegment(dir[|root|]) && root <= dir + [name] && dir + [name] == root + [dir[|root|], name]
  {
  }

  lemma TwoFurther(root: Segments, d: string, n: string, dir: Segments, name: string)
    requires Clean(root) && Clean(dir) && CleanSegment(d) && CleanSegment(n) && CleanSegment(name)
    requires Absolute(root + [d, n]) == Absolute(dir + [name])
    ensures dir == root + [d]
  {
    RenderInjective(root + [d, n], dir + [name]);
    assert root + [d, n] == (root + [d]) + [n];
    assert dir == (dir + [name])[..|dir + [name]| - 1];
    assert root + [d] == ((root + [d]) + [n])[..|root| + 1];
  }

  /** What follows the name in an output key. */
  function OutputTail(suffix: string, uuid: string, ext: string): string {
    "-" + suffix + "-" + Take(uuid, 8) + ext
  }

  lemma OutputTailIsPlain(suffix: string, uuid: string, ext: string)
    requires IsUuid(uuid) && '/' !in suffix && '/' !in ext
    ensures Tail(OutputTail(suffix, uuid, ext))
    ensures forall base :: OutputKey(base, suffix, uuid, ext) == "outputs/" + (base + OutputTail(suffix, uuid, ext))
  {
    assert '/' !in uuid && '/' !in "-";
    assert OutputTail(suffix, uuid, ext)[0] == '-';
    forall base
      ensures OutputKey(base, suffix, uuid, ext) == "outputs/" + (base + OutputTail(suffix, uuid, ext))
    {
      assert base + "-" + suffix + "-" + Take(uuid, 8) + ext == base + OutputTail(suffix, uuid, ext);
    }
  }

  /** A name without a separator lands in the output directory itself. */
  lemma OutputLands(root: Segments, base: string, suffix: string, uuid: string, ext: string)
    requires Clean(root) && root != [] && IsUuid(uuid) && '/' !in base && '/' !in suffix && '/' !in ext
    ensures LandsTwoBelow(root, OutputKey(base, suffix, uuid, ext), "outputs")
    ensures OutputDir(root, base) == root + ["outputs"]
  {
    var tail := OutputTail(suffix, uuid, ext);
    OutputTailIsPlain(suffix, uuid, ext);
    SplitPlain(base);
    TailedIsClean(base, tail);
    assert CleanSegment("outputs");
    assert "outputs/" + (base + tail) == "outputs" + "/" + (base + tail);
    TwoBelowRoot(root, "outputs", base + tail);
  }

  /** The part of the display name a CSV output key is made of. */
  function CsvBase(name: string): string {
    Take(Stem(SanitizeFilename(name)), 40)
  }

  /** Exactly which submitted names give a CSV output key that the sweep can reach. */
  lemma CsvOutputKeySweptExactly(root: Segments, name: string, suffix: string, uuid: string, ext: string)
    requires Clean(root) && root != [] && IsUuid(uuid) && '/' !in suffix && '/' !in ext
    ensures Sweepable(root, CsvOutputKey(SanitizeFilename(name), suffix, uuid, ext))
       <==> root <= OutputDir(root, CsvBase(name)) && |OutputDir(root, CsvBase(name))| == |root| + 1
  {
    OutputTailIsPlain(suffix, uuid, ext);
    OutputSweptExactly(root, CsvBase(name), OutputTail(suffix, uuid, ext));
  }

  /** In particular it is reached for every submitted name without a separator past a line terminator. */
  lemma CsvOutputKeyIsSweepable(root: Segments, name: string, suffix: string, uuid: string, ext: string)
    requires Clean(root) && root != [] && IsUuid(uuid) && '/' !in suffix && '/' !in ext
    requires !BrokenPath(name)
    ensures LandsTwoBelow(root, CsvOutputKey(SanitizeFilename(name), suffix, uuid, ext), "outputs")
    ensures Sweepable(root, CsvOutputKey(SanitizeFilename(name), suffix, uuid, ext))
  {
    SanitizedShape(name);
    var r := SanitizeFilename(name);
    if i :| 0 <= i < |r| && r[i] == '/' {
      assert IsSeparator(r[i]);
    }
    OutputLands(root, CsvBase(name), suffix, uuid, ext);
    CsvOutputKeySweptExactly(root, name, suffix, uuid, ext);
  }

  /** Image output keys are made from the upload's generated key, so they always land there. */
  lemma ImageOutputKeyIsSweepable(root: Segments, file: string, suffix: string, uuid: string, ext: string)
    requires Clean(root) && root != [] && IsUuid(uuid) && '/' !in suffix && '/' !in ext && '/' !in file
    ensures LandsTwoBelow(root, ImageOutputKey("uploads/" + file, suffix, uuid, ext), "outputs")
  {
    var key := "uploads/" + file;
    var base := RemoveFirst(file, ExtName(key));
    OutputLands(root, base, suffix, uuid, ext);
  }

  /** The display name that kept its separator yields a key three components deep, which the sweep never visits. */
  lemma BrokenNameEscapesTheSweep(root: Segments, name: string, uuid: string)
    requires Clean(root) && root != [] && IsUuid(uuid) && name == "a\n/b"
    ensures var key := CsvOutputKey(SanitizeFilename(name), "clean", uuid, ".csv");
            PathFor(Absolute(root), key) == Some(Absolute(root + ["outputs", "a", "b-clean-" + Take(uuid, 8) + ".csv"]))
  {
    SeparatorCanSurvive(name);
    BrokenKeyText(SanitizeFilename(name), uuid);
    BrokenFileIsClean(uuid);
    var file := "b-clean-" + Take(uuid, 8) + ".csv";
    assert CleanSegment("outputs") && CleanSegment("a");
    ThreeBelowRoot(root, "outputs", "a", file);
  }

  lemma BrokenFileIsClean(uuid: string)
    requires IsUuid(uuid)
    ensures CleanSegment("b-clean-" + Take(uuid, 8) + ".csv")
  {
    assert '/' !in uuid && '/' !in Take(uuid, 8) && '/' !in "b-clean-" && '/' !in ".csv";
  }

  lemma BrokenKeyText(name: string, uuid: string)
    requires name == "a/b"
    ensures CsvOutputKey(name, "clean", uuid, ".csv")
         == "outputs" + "/" + ("a" + "/" + ("b-clean-" + Take(uuid, 8) + ".csv"))
  {
    assert '.' !in name;
    assert Take(Stem(name), 40) == name;
    var p := Take(uuid, 8);
    assert name + "-" + "clean" + "-" == "a" + "/" + "b-clean-";
    assert name + "-" + "clean" + "-" + p + ".csv" == "a" + "/" + ("b-clean-" + p + ".csv");
  }

  lemma ThreeBelowRoot(root: Segments, a: string, b: string, c: string)
    requires Clean(root) && root != [] && CleanSegment(a) && CleanSegment(b) && CleanSegment(c)
    ensures PathFor(Absolute(root), a + "/" + (b + "/" + c)) == Some(Absolute(root + [a, b, c]))
  {
    SplitConcat(a, b + "/" + c);
    SplitConcat(b, c);
    SplitPlain(a);
    SplitPlain(b);
    SplitPlain(c);
    assert [a] + ([b] + [c]) == [a, b, c];
    ResolvedClean(root, [a, b, c]);
    PathForIsContained(root, a + "/" + (b + "/" + c));
  }

  /** A name of a stem, a dot and an extension. */
  ghost predicate Dotted(s: string, base: string, ext: string) {
    |s| == |base| + 1 + |ext| && s[..|base|] == base && s[|base|] == '.' && s[|base| + 1..] == ext
  }

  lemma {:induction false} PlainIsLast(s: string)
    requires '/' !in s
    ensures AfterSlash(s) == s && LastComponent(s) == s
  {
    if s != "" {
      PlainIsLast(s[..|s| - 1]);
      assert s == s[..|s| - 1] + [s[|s| - 1]];
    }
  }

  /** A display name of a stem, a dot and an extension, both parts there: what its keys take from it. */
  lemma PartsOfName(s: string, base: string, ext: string)
    requires Dotted(s, base, ext) && '/' !in base && '/' !in ext && '.' !in ext && base != "" && ext != ""
    ensures ExtName(s) == s[|base|..] && Stem(s) == base && LastComponent(s) == s
  {
    forall i | 0 <= i < |s|
      ensures s[i] != '/'
    {
      if i < |base| {
        assert s[i] == base[i] && base[i] in base;
      } else if i > |base| {
        assert s[i] == ext[i - |base| - 1] && ext[i - |base| - 1] in ext;
      }
    }
    PlainIsLast(s);
    assert s[|base| + 1] == ext[0] && ext[0] in ext;
  }

  lemma NamesWithoutDot(name: string)
    requires '/' !in name && '.' !in name
    ensures ExtName(name) == "" && Stem(name) == name
  {
    PlainIsLast(name);
  }

  /** The upload key: the identifier, and at most ten characters of the lowered extension with its dot. */
  lemma UploadKeyReads(base: string, ext: string, uuid: string, lower: string -> string)
    requires '/' !in base && '/' !in ext && '.' !in ext && base != "" && ext != ""
    ensures var low := lower("." + ext);
            StorageKeyFor(base + "." + ext, uuid, lower) == "uploads/" + uuid + if |low| <= 10 then low else low[..10]
  {
    PartsOfName(base + "." + ext, base, ext);
    assert (base + "." + ext)[|base|..] == "." + ext;
  }

  /** The CSV output key: at most forty characters of the stem, the suffix, eight of the identifier, the extension. */
  lemma CsvKeyReads(name: string, base: string, ext: string, suffix: string, uuid: string, newExt: string)
    requires Dotted(name, base, ext)
    requires '/' !in base && '/' !in ext && '.' !in ext && base != "" && ext != "" && |uuid| >= 8
    ensures CsvOutputKey(name, suffix, uuid, newExt)
         == "outputs/" + ((if |base| <= 40 then base else base[..40]) + "-" + suffix + "-" + uuid[..8] + newExt)
  {
    PartsOfName(name, base, ext);
  }

  /** The image output key is made of the upload's identifier, its extension taken off where it stands first. */
  lemma ImageKeyReads(file: string, id: string, ext: string, suffix: string, uuid: string, newExt: string)
    requires Dotted(file, id, ext)
    requires '/' !in id && '.' !in id && '/' !in ext && '.' !in ext && id != "" && ext != "" && |uuid| >= 8
    ensures ImageOutputKey("uploads/" + file, suffix, uuid, newExt)
         == "outputs/" + (id + "-" + suffix + "-" + uuid[..8] + newExt)
  {
    ImageBaseIs(file, id, ext);
  }

  lemma ImageBaseIs(file: string, id: string, ext: string)
    requires Dotted(file, id, ext)
    requires '/' !in id && '.' !in id && '/' !in ext && '.' !in ext && id != "" && ext != ""
    ensures var key := "uploads/" + file; RemoveFirst(StripUploads(key), ExtName(key)) == id
  {
    PartsOfName(file, id, ext);
    LastOfUpload("uploads/" + file, file);
    RemoveAfter(id, file[|id|..]);
    assert id + file[|id|..] == file;
  }

  lemma {:induction false} AfterSlashOfUpload(dir: string, file: string)
    requires '/' !in file
    ensures AfterSlash(dir + "/" + file) == file
  {
    var s := dir + "/" + file;
    if file != "" {
      AfterSlashOfUpload(dir, file[..|file| - 1]);
      assert s[..|s| - 1] == dir + "/" + file[..|file| - 1];
    }
  }

  lemma LastInDir(s: string, dir: string, file: string)
    requires s == dir + "/" + file && '/' !in file && file != ""
    ensures LastComponent(s) == file
  {
    AfterSlashOfUpload(dir, file);
    assert s[|s| - 1] == file[|file| - 1] && file[|file| - 1] in file;
  }

  lemma LastOfUpload(s: string, file: string)
    requires s == "uploads/" + file && LastComponent(file) == file && file != "" && '/' !in file
    ensures ExtName(s) == ExtName(file)
  {
    assert s == s[..7] + "/" + file;
    LastInDir(s, s[..7], file);
  }

  /** Nothing before a dot is taken for the extension. */
  lemma {:induction false} RemoveAfter(id: string, pattern: string)
    requires '.' !in id && pattern != "" && pattern[0] == '.'
    ensures RemoveFirst(id + pattern, pattern) == id
  {
    if id == "" {
      assert id + pattern == pattern;
    } else {
      assert (id + pattern)[0] == id[0] && id[0] in id;
      assert (id + pattern)[1..] == id[1..] + pattern;
      RemoveAfter(id[1..], pattern);
    }
  }
}
