/** `String.prototype.trim` and small facts about sequences the other modules share. */
module Text {

  /** White space and line terminators as ECMAScript's trim strips them. */
  predicate IsSpace(c: char) {
    || '\U{0009}' <= c <= '\U{000D}'
    || c == '\U{0020}' || c == '\U{00A0}' || c == '\U{1680}'
    || '\U{2000}' <= c <= '\U{200A}'
    || c == '\U{2028}' || c == '\U{2029}' || c == '\U{202F}' || c == '\U{205F}' || c == '\U{3000}' || c == '\U{FEFF}'
  }

  function TrimStart(s: string): (r: string)
    ensures |r| <= |s|
  {
    if s != "" && IsSpace(s[0]) then TrimStart(s[1..]) else s
  }

  function TrimEnd(s: string): (r: string)
    ensures |r| <= |s|
  {
    if s != "" && IsSpace(s[|s| - 1]) then TrimEnd(s[..|s| - 1]) else s
  }

  function Trim(s: string): string {
    TrimEnd(TrimStart(s))
  }

  predicate Tight(s: string) {
    s == "" || (!IsSpace(s[0]) && !IsSpace(s[|s| - 1]))
  }

  lemma {:induction false} TrimStartParts(s: string) returns (n: nat)
    ensures n <= |s| && TrimStart(s) == s[n..]
    ensures forall i :: 0 <= i < n ==> IsSpace(s[i])
    ensures n < |s| ==> !IsSpace(s[n])
  {
    if s != "" && IsSpace(s[0]) {
      var m := TrimStartParts(s[1..]);
      n := m + 1;
      assert forall i :: 1 <= i < n ==> s[i] == s[1..][i - 1];
    } else {
      n := 0;
    }
  }

  lemma {:induction false} TrimEndParts(s: string) returns (n: nat)
    ensures n <= |s| && TrimEnd(s) == s[..n]
    ensures forall i :: n <= i < |s| ==> IsSpace(s[i])
    ensures n > 0 ==> !IsSpace(s[n - 1])
  {
    if s != "" && IsSpace(s[|s| - 1]) {
      n := TrimEndParts(s[..|s| - 1]);
    } else {
      n := |s|;
    }
  }

  /** Trim cuts out the tight middle: only white space is removed, and none is left at either end. */
  lemma TrimParts(s: string) returns (from: nat, to: nat)
    ensures from <= to <= |s| && Trim(s) == s[from..to] && Tight(Trim(s))
    ensures forall i :: 0 <= i < from || to <= i < |s| ==> IsSpace(s[i])
    ensures Trim(s) != "" <==> exists i :: 0 <= i < |s| && !IsSpace(s[i])
  {
    from := TrimStartParts(s);
    var rest := s[from..];
    var n := TrimEndParts(rest);
    to := from + n;
    assert forall i :: to <= i < |s| ==> s[i] == rest[i - from];
    if n > 0 {
      assert rest[0] == s[from];
    }
  }

  lemma TrimIdempotent(s: string)
    ensures Trim(Trim(s)) == Trim(s)
  {
    var from, to := TrimParts(s);
  }

  predicate AllSpace(s: string) {
    forall i :: 0 <= i < |s| ==> IsSpace(s[i])
  }

  /** The text without the white space at its ends. */
  ghost predicate IsTrimmed(s: string, t: string) {
    exists a, b :: 0 <= a <= b <= |s| && t == s[a..b] && Tight(t) && AllSpace(s[..a]) && AllSpace(s[b..])
  }

  /** What `trim` is: nothing but white space goes, from the ends, and none is left there. */
  lemma TrimmedIs(s: string)
    ensures IsTrimmed(s, Trim(s)) && (Trim(s) == "" <==> AllSpace(s))
  {
    var from, to := TrimParts(s);
    assert forall i :: 0 <= i < |s[to..]| ==> s[to..][i] == s[to + i];
    assert AllSpace(s[..from]) && AllSpace(s[to..]);
  }

  /** There is one way to trim. */
  lemma TrimmedOnce(s: string, t: string)
    requires IsTrimmed(s, t)
    ensures Trim(s) == t
  {
    TrimmedIs(s);
    SameTrimmed(s, t, Trim(s));
  }

  lemma SameTrimmed(s: string, t: string, u: string)
    requires IsTrimmed(s, t) && IsTrimmed(s, u)
    ensures t == u
  {
    var a, b :| 0 <= a <= b <= |s| && t == s[a..b] && Tight(t) && AllSpace(s[..a]) && AllSpace(s[b..]);
    var c, d :| 0 <= c <= d <= |s| && u == s[c..d] && Tight(u) && AllSpace(s[..c]) && AllSpace(s[d..]);
    if a < b {
      Inside(s, c, d, a, b);
    }
    if c < d {
      Inside(s, a, b, c, d);
    }
  }

  /** A tight stretch lies within any stretch outside of which there is only white space. */
  lemma Inside(s: string, a: nat, b: nat, c: nat, d: nat)
    requires a <= b <= |s| && AllSpace(s[..a]) && AllSpace(s[b..])
    requires c < d <= |s| && Tight(s[c..d])
    ensures a <= c && d <= b
  {
    assert s[c..d][0] == s[c] && s[c..d][d - c - 1] == s[d - 1];
  }

  /** No printing character below 128 is white space; blanks, tabs, every line terminator, the no-break space and the byte order mark are. */
  lemma SpacesAmongOthers(c: char)
    ensures '\U{0021}' <= c <= '\U{007E}' ==> !IsSpace(c)
    ensures c == ' ' || c == '\t' || c == '\n' || c == '\r' || c == '\U{2028}' || c == '\U{2029}' ==> IsSpace(c)
    ensures c == '\U{00A0}' || c == '\U{FEFF}' ==> IsSpace(c)
  {
  }

  /** At most the first `n` elements. */
  function Take<T>(xs: seq<T>, n: nat): seq<T> {
    if |xs| <= n then xs else xs[..n]
  }

  /** Sum of a measure over a sequence. */
  function Total<T>(xs: seq<T>, f: T -> nat): nat {
    if xs == [] then 0 else Total(xs[..|xs| - 1], f) + f(xs[|xs| - 1])
  }

  lemma {:induction false} TotalSplit<T>(xs: seq<T>, ys: seq<T>, f: T -> nat)
    ensures Total(xs + ys, f) == Total(xs, f) + Total(ys, f)
  {
    if ys == [] {
      assert xs + ys == xs;
    } else {
      TotalSplit(xs, ys[..|ys| - 1], f);
      assert (xs + ys)[..|xs + ys| - 1] == xs + ys[..|ys| - 1];
    }
  }

  /** Taking out one occurrence, from the multiset and from the sum. */
  lemma TakeOut<T>(xs: seq<T>, before: seq<T>, x: T, after: seq<T>, f: T -> nat)
    requires xs == before + [x] + after
    ensures multiset(before + after) == multiset(xs) - multiset{x}
    ensures Total(xs, f) == Total(before + after, f) + f(x)
  {
    assert multiset(xs) == multiset(before) + multiset{x} + multiset(after);
    TakeOutTotal(before, x, after, f);
  }

  lemma TakeOutTotal<T>(before: seq<T>, x: T, after: seq<T>, f: T -> nat)
    ensures Total(before + [x] + after, f) == Total(before + after, f) + f(x)
  {
    TotalSplit(before, after, f);
    TotalSplit(before + [x], after, f);
    assert (before + [x])[..|before|] == before;
  }

  /** Sums do not depend on order. */
  lemma {:induction false} TotalPermuted<T>(xs: seq<T>, ys: seq<T>, f: T -> nat)
    requires multiset(xs) == multiset(ys)
    ensures Total(xs, f) == Total(ys, f)
  {
    if xs == [] {
      assert |multiset(ys)| == 0;
    } else {
      var front, x := xs[..|xs| - 1], xs[|xs| - 1];
      assert x in multiset(ys);
      var k :| 0 <= k < |ys| && ys[k] == x;
      TakeOut(xs, front, x, [], f);
      TakeOut(ys, ys[..k], x, ys[k + 1..], f);
      assert front + [] == front;
      TotalPermuted(front, ys[..k] + ys[k + 1..], f);
    }
  }
}
