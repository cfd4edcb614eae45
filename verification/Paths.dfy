/** Where a storage key lands: POSIX path joining and resolving, and the guard that keeps keys inside the root. */
module Paths {
  import opened Wrappers

  type Segments = seq<string>

  function Split(path: string): (r: Segments)
    ensures |r| > 0
    ensures forall i :: 0 <= i < |r| ==> '/' !in r[i]
  {
    if path == "" then [""]
    else
      var rest := Split(path[1..]);
      if path[0] == '/' then [""] + rest else [[path[0]] + rest[0]] + rest[1..]
  }

  function Render(segments: Segments): string {
    if segments == [] then "" else "/" + segments[0] + Render(segments[1..])
  }

  function Absolute(segments: Segments): string {
    if segments == [] then "/" else Render(segments)
  }

  /** One path component applied to a stack of resolved ones; `..` at the top stays at the top. */
  function Enter(stack: Segments, segment: string): Segments {
    if segment == "" || segment == "." then stack
    else if segment == ".." then (if stack == [] then [] else stack[..|stack| - 1])
    else stack + [segment]
  }

  function Resolved(stack: Segments, segments: Segments): Segments
    decreases segments
  {
    if segments == [] then stack else Resolved(Enter(stack, segments[0]), segments[1..])
  }

  /** `path.normalize` of an absolute path keeps a trailing slash; `path.resolve` drops it. */
  function Normalize(path: string): string {
    var s := Resolved([], Split(path));
    if s == [] then "/" else Render(s) + if path != "" && path[|path| - 1] == '/' then "/" else ""
  }

  function Join(root: string, key: string): string {
    Normalize(if key == "" then root else root + "/" + key)
  }

  function Resolve(path: string): string {
    Absolute(Resolved([], Split(path)))
  }

  /** `pathFor`: the absolute path of a key, or nothing where the source throws. */
  function PathFor(root: string, key: string): Option<string> {
    var full := Resolve(Join(root, key));
    if full != root && !(root + "/" <= full) then None else Some(full)
  }

  predicate Clean(segments: Segments) {
    forall i :: 0 <= i < |segments| ==> CleanSegment(segments[i])
  }

  predicate CleanSegment(s: string) {
    '/' !in s && s != "" && s != "." && s != ".."
  }

  lemma {:induction false} SplitConcat(a: string, b: string)
    ensures Split(a + "/" + b) == Split(a) + Split(b)
    decreases a
  {
    if a == "" {
      assert a + "/" + b == "/" + b;
      assert ("/" + b)[1..] == b;
    } else {
      assert (a + "/" + b)[1..] == a[1..] + "/" + b;
      SplitConcat(a[1..], b);
    }
  }

  lemma {:induction false} SplitPlain(s: string)
    requires '/' !in s
    ensures Split(s) == [s]
  {
    if s != "" {
      SplitPlain(s[1..]);
      assert [s[0]] + s[1..] == s;
    }
  }

  lemma {:induction false} SplitRender(segments: Segments)
    requires Clean(segments)
    ensures Split(Render(segments)) == [""] + segments
    decreases segments
  {
    if segments != [] {
      var s := segments[0];
      CleanTail(segments);
      SplitRender(segments[1..]);
      SplitFirst(s, Render(segments[1..]), segments[1..]);
      assert segments == [s] + segments[1..];
    }
  }

  lemma SplitFirst(s: string, rest: string, names: Segments)
    requires '/' !in s && Split(rest) == [""] + names && (rest == "" || rest[0] == '/')
    ensures Split("/" + s + rest) == [""] + ([s] + names)
  {
    assert "/" + s + rest == "" + "/" + (s + rest);
    SplitConcat("", s + rest);
    SplitPrefixed(s, rest, names);
  }

  lemma SplitPrefixed(s: string, rest: string, names: Segments)
    requires '/' !in s && Split(rest) == [""] + names && (rest == "" || rest[0] == '/')
    ensures Split(s + rest) == [s] + names
  {
    SplitPlain(s);
    if rest == "" {
      assert s + rest == s;
    } else {
      assert Split(rest) == [""] + Split(rest[1..]);
      assert Split(rest[1..]) == Split(rest)[1..] == names;
      SplitConcat(s, rest[1..]);
      assert s + rest == s + "/" + rest[1..];
    }
  }

  lemma {:induction false} ResolvedConcat(stack: Segments, a: Segments, b: Segments)
    ensures Resolved(stack, a + b) == Resolved(Resolved(stack, a), b)
    decreases a
  {
    if a == [] {
      assert a + b == b;
    } else {
      assert (a + b)[1..] == a[1..] + b;
      ResolvedConcat(Enter(stack, a[0]), a[1..], b);
    }
  }

  lemma {:induction false} ResolvedClean(stack: Segments, segments: Segments)
    requires Clean(segments)
    ensures Resolved(stack, segments) == stack + segments
    decreases segments
  {
    if segments != [] {
      CleanTail(segments);
      ResolvedClean(stack + [segments[0]], segments[1..]);
    }
  }

  lemma {:induction false} ResolvedIsClean(stack: Segments, segments: Segments)
    requires Clean(stack) && forall i :: 0 <= i < |segments| ==> '/' !in segments[i]
    ensures Clean(Resolved(stack, segments))
    decreases segments
  {
    if segments != [] {
      ResolvedIsClean(Enter(stack, segments[0]), segments[1..]);
    }
  }

  lemma ResolvedAtSlash(stack: Segments, segment: string, rest: string)
    requires '/' !in segment
    ensures Resolved(stack, Split(segment + "/" + rest)) == Resolved(Enter(stack, segment), Split(rest))
  {
    SplitConcat(segment, rest);
    SplitPlain(segment);
    ResolvedConcat(stack, [segment], Split(rest));
  }

  lemma NextChar(segment: string, path: string, i: nat)
    requires i < |path|
    ensures segment + path[i..] == (segment + [path[i]]) + path[i + 1..]
  {
  }

  /** The normalising loop over the characters of a path, pushing and popping components as separators come. */
  method NormalizeLoop(path: string) returns (stack: Segments)
    ensures stack == Resolved([], Split(path))
  {
    stack := [];
    var segment := "";
    assert segment + path[0..] == path;
    for i := 0 to |path|
      invariant '/' !in segment
      invariant Resolved([], Split(path)) == Resolved(stack, Split(segment + path[i..]))
    {
      NextChar(segment, path, i);
      if path[i] == '/' {
        ResolvedAtSlash(stack, segment, path[i + 1..]);
        if segment == ".." {
          if |stack| > 0 {
            stack := stack[..|stack| - 1];
          }
        } else if segment != "" && segment != "." {
          stack := stack + [segment];
        }
        segment := "";
        assert segment + path[i + 1..] == path[i + 1..];
      } else {
        segment := segment + [path[i]];
      }
    }
    assert segment + path[|path|..] == segment;
    SplitPlain(segment);
    stack := Enter(stack, segment);
  }

  /** Resolving what normalising produced gives the same components: the two passes agree. */
  lemma ResolveAfterJoin(root: Segments, key: string)
    requires Clean(root)
    ensures Resolve(Join(Absolute(root), key)) == Absolute(Resolved(root, Split(key)))
    ensures Clean(Resolved(root, Split(key)))
  {
    var start := Absolute(root);
    var joined := if key == "" then start else start + "/" + key;
    var s := Resolved([], Split(joined));
    RootResolves(root);
    if key == "" {
      assert Resolved(root, Split("")) == root;
    } else {
      SplitConcat(start, key);
      ResolvedConcat([], Split(start), Split(key));
    }
    assert s == Resolved(root, Split(key));
    ResolvedIsClean(root, Split(key));
    RootResolves(s);
    if s != [] {
      TrailingSlash(s);
      assert Render(s) + "" == Render(s);
    }
  }

  lemma RootResolves(root: Segments)
    requires Clean(root)
    ensures Resolved([], Split(Absolute(root))) == root
  {
    if root == [] {
      assert "/"[1..] == "";
      assert Split("/") == ["", ""];
    } else {
      SplitRender(root);
      ResolvedConcat([], [""], root);
      ResolvedClean([], root);
    }
  }

  lemma TrailingSlash(s: Segments)
    requires Clean(s) && s != []
    ensures Resolved([], Split(Render(s) + "/")) == s
  {
    SplitConcat(Render(s), "");
    assert Render(s) + "/" + "" == Render(s) + "/";
    ResolvedConcat([], Split(Render(s)), [""]);
    RootResolves(s);
  }

  /** Two slash-free names followed by something that starts at a slash agree as strings only if they agree. */
  lemma NamesAlign(x: string, p: string, y: string, q: string)
    requires '/' !in x && '/' !in y && p != "" && p[0] == '/' && (q == "" || q[0] == '/')
    ensures x + p <= y + q <==> x == y && p <= q
  {
    var whole, part := y + q, x + p;
    assert forall i :: 0 <= i < |y| ==> whole[i] == y[i];
    assert forall i :: 0 <= i < |x| ==> part[i] == x[i];
    assert part[|x|] == '/' && (|y| < |whole| ==> whole[|y|] == '/');
    if part <= whole {
      assert forall i :: 0 <= i < |part| ==> part[i] == whole[i];
      assert |x| == |y|;
      assert p == part[|x|..] && q == whole[|y|..];
    }
  }

  /** The string test of the guard is segment-list extension: a sibling that shares a prefix does not pass. */
  lemma {:induction false} PrefixIsExtension(a: Segments, b: Segments)
    requires Clean(a) && Clean(b)
    ensures Render(a) + "/" <= Render(b) <==> |a| < |b| && a == b[..|a|]
    decreases a
  {
    if b == [] {
    } else if a == [] {
      assert Render(b)[0] == '/';
      assert "" + "/" == "/" && b[..0] == [];
    } else {
      CleanTail(a);
      CleanTail(b);
      PrefixIsExtension(a[1..], b[1..]);
      FirstNames(a[0], Render(a[1..]), b[0], Render(b[1..]));
      if |a| < |b| {
        TailExtends(a, b);
      }
    }
  }

  lemma CleanTail(a: Segments)
    requires Clean(a) && a != []
    ensures CleanSegment(a[0]) && Clean(a[1..])
  {
    assert forall i :: 0 <= i < |a| - 1 ==> a[1..][i] == a[i + 1];
  }

  lemma TailExtends(a: Segments, b: Segments)
    requires 0 < |a| < |b|
    ensures a == b[..|a|] <==> a[0] == b[0] && a[1..] == b[1..][..|a| - 1]
  {
    assert a == [a[0]] + a[1..];
    assert b[..|a|] == [b[0]] + b[1..][..|a| - 1];
  }

  lemma FirstNames(x: string, p: string, y: string, q: string)
    requires '/' !in x && '/' !in y && (p == "" || p[0] == '/') && (q == "" || q[0] == '/')
    ensures "/" + x + p + "/" <= "/" + y + q <==> x == y && p + "/" <= q
  {
    NamesAlign(x, p + "/", y, q);
    assert "/" + x + p + "/" == "/" + (x + (p + "/"));
    assert "/" + y + q == "/" + (y + q);
    PrefixAfterSlash(x + (p + "/"), y + q);
  }

  lemma PrefixAfterSlash(s: string, t: string)
    ensures "/" + s <= "/" + t <==> s <= t
  {
    assert ("/" + s)[1..] == s && ("/" + t)[1..] == t;
    if s <= t {
      assert t == s + t[|s|..];
      assert "/" + t == ("/" + s) + t[|s|..];
    }
  }

  lemma RenderInjective(a: Segments, b: Segments)
    requires Clean(a) && Clean(b) && Absolute(a) == Absolute(b)
    ensures a == b
  {
    RootResolves(a);
    RootResolves(b);
  }

  /**
   * Containment: for every root but "/", a key is accepted exactly if what it resolves to extends the root's
   * components, wherever it went on the way there, and then that is where it lands.
   */
  lemma PathForIsContained(root: Segments, key: string)
    requires Clean(root) && root != []
    ensures var s := Resolved(root, Split(key));
            PathFor(Absolute(root), key) == if root <= s then Some(Absolute(s)) else None
  {
    var s := Resolved(root, Split(key));
    ResolveAfterJoin(root, key);
    PrefixIsExtension(root, s);
    if Absolute(s) == Absolute(root) {
      RenderInjective(s, root);
    }
    if s == [] {
      assert Absolute(root)[0] == '/' && |Absolute(root)| > 1;
    }
    assert root <= s <==> root == s || (|root| < |s| && root == s[..|root|]);
  }

  /** With "/" itself as root the guard asks for a double slash, and refuses every key but those naming the root. */
  lemma RootSlashRefusesFiles(key: string)
    ensures PathFor("/", key) == if Resolved([], Split(key)) == [] then Some("/") else None
  {
    var s := Resolved([], Split(key));
    ResolveAfterJoin([], key);
    assert Absolute([]) == "/";
    if s != [] {
      var full := Absolute(s);
      assert CleanSegment(s[0]);
      assert full[1] == s[0][0] != '/';
    }
  }

  /** What survives when components are read from the right, each `..` cancelling one name to its left. */
  function Surviving(segments: Segments, pending: nat): Segments {
    if segments == [] then []
    else
      var front, last := segments[..|segments| - 1], segments[|segments| - 1];
      if last == "" || last == "." then Surviving(front, pending)
      else if last == ".." then Surviving(front, pending + 1)
      else if pending > 0 then Surviving(front, pending - 1)
      else Surviving(front, 0) + [last]
  }

  function DropLast(s: Segments, n: nat): Segments {
    if n >= |s| then [] else s[..|s| - n]
  }

  lemma DropAfterPop(stack: Segments, n: nat)
    ensures DropLast(Enter(stack, ".."), n) == DropLast(stack, n + 1)
  {
  }

  lemma DropAfterPush(stack: Segments, name: string, n: nat)
    requires n > 0
    ensures DropLast(stack + [name], n) == DropLast(stack, n - 1)
  {
  }

  /** The stack walk and the right-to-left cancellation resolve every component list alike. */
  lemma {:induction false} ResolvedIsSurviving(segments: Segments, pending: nat)
    ensures DropLast(Resolved([], segments), pending) == Surviving(segments, pending)
  {
    if segments != [] {
      var front, last := segments[..|segments| - 1], segments[|segments| - 1];
      assert segments == front + [last];
      ResolvedConcat([], front, [last]);
      var stack := Resolved([], front);
      if last == "" || last == "." {
        ResolvedIsSurviving(front, pending);
      } else if last == ".." {
        ResolvedIsSurviving(front, pending + 1);
        DropAfterPop(stack, pending);
      } else if pending > 0 {
        ResolvedIsSurviving(front, pending - 1);
        DropAfterPush(stack, last, pending);
      } else {
        ResolvedIsSurviving(front, 0);
        assert DropLast(stack, 0) == stack;
      }
    }
  }
}
