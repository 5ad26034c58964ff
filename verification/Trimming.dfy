/** Cutting the ends off a sequence, as strings.TrimSpace and the embedding texts' trimmers do. */
module Trimming {

  function TrimLeft<T>(s: seq<T>, p: T -> bool): seq<T> {
    if s != [] && p(s[0]) then TrimLeft(s[1..], p) else s
  }

  function TrimRight<T>(s: seq<T>, p: T -> bool): seq<T> {
    if s != [] && p(s[|s| - 1]) then TrimRight(s[..|s| - 1], p) else s
  }

  function Trim<T>(s: seq<T>, p: T -> bool): seq<T> {
    TrimRight(TrimLeft(s, p), p)
  }

  ghost predicate All<T>(s: seq<T>, p: T -> bool) {
    forall i :: 0 <= i < |s| ==> p(s[i])
  }

  /** s is l + t + r, the ends l and r are to be cut off, and t cannot be cut any further. */
  ghost predicate Cut<T>(s: seq<T>, p: T -> bool, l: seq<T>, t: seq<T>, r: seq<T>) {
    && s == l + t + r && All(l, p) && All(r, p)
    && (t != [] ==> !p(t[0]) && !p(t[|t| - 1]))
  }

  lemma {:induction false} TrimLeftCuts<T>(s: seq<T>, p: T -> bool) returns (l: seq<T>)
    ensures s == l + TrimLeft(s, p) && All(l, p)
    ensures TrimLeft(s, p) != [] ==> !p(TrimLeft(s, p)[0])
  {
    l := [];
    if s != [] && p(s[0]) {
      var m := TrimLeftCuts(s[1..], p);
      l := [s[0]] + m;
    }
  }

  lemma {:induction false} TrimRightCuts<T>(s: seq<T>, p: T -> bool) returns (r: seq<T>)
    ensures s == TrimRight(s, p) + r && All(r, p)
    ensures TrimRight(s, p) != [] ==> !p(TrimRight(s, p)[|TrimRight(s, p)| - 1])
  {
    r := [];
    if s != [] && p(s[|s| - 1]) {
      var m := TrimRightCuts(s[..|s| - 1], p);
      r := m + [s[|s| - 1]];
    }
  }

  lemma TrimCuts<T>(s: seq<T>, p: T -> bool) returns (l: seq<T>, r: seq<T>)
    ensures Cut(s, p, l, Trim(s, p), r)
  {
    l := TrimLeftCuts(s, p);
    r := TrimRightCuts(TrimLeft(s, p), p);
    var t := Trim(s, p);
    if t != [] {
      assert TrimLeft(s, p)[0] == t[0];
    }
  }

  /** There is only one way to cut maximal ends off, so whatever does so has computed `Trim`. */
  lemma CutIsTrim<T>(s: seq<T>, p: T -> bool, l: seq<T>, t: seq<T>, r: seq<T>)
    requires Cut(s, p, l, t, r)
    ensures t == Trim(s, p)
  {
    SkipLeft(l, t + r, p);
    assert l + t + r == l + (t + r);
    if t == [] {
      assert t + r == r + [];
      SkipLeft(r, [], p);
    } else {
      assert TrimLeft(t + r, p) == t + r by { assert (t + r)[0] == t[0]; }
      SkipRight(t, r, p);
    }
  }

  lemma {:induction false} SkipLeft<T>(l: seq<T>, rest: seq<T>, p: T -> bool)
    requires All(l, p)
    ensures TrimLeft(l + rest, p) == TrimLeft(rest, p)
  {
    if l == [] {
      assert l + rest == rest;
    } else {
      assert (l + rest)[1..] == l[1..] + rest;
      SkipLeft(l[1..], rest, p);
    }
  }

  lemma {:induction false} SkipRight<T>(rest: seq<T>, r: seq<T>, p: T -> bool)
    requires All(r, p)
    ensures TrimRight(rest + r, p) == TrimRight(rest, p)
  {
    if r == [] {
      assert rest + r == rest;
    } else {
      var n := |r| - 1;
      assert (rest + r)[..|rest + r| - 1] == rest + r[..n];
      assert (rest + r)[|rest + r| - 1] == r[n];
      SkipRight(rest, r[..n], p);
    }
  }

  lemma TrimIdempotent<T>(s: seq<T>, p: T -> bool)
    ensures Trim(Trim(s, p), p) == Trim(s, p)
  {
    var l, r := TrimCuts(s, p);
    var t := Trim(s, p);
    assert t == [] + t + [];
    CutIsTrim(t, p, [], t, []);
  }

  /** unicode.IsSpace */
  predicate IsSpace(c: char) {
    var n := c as int;
    || n == 0x20 || 0x09 <= n <= 0x0D || n == 0x85 || n == 0xA0 || n == 0x1680
    || 0x2000 <= n <= 0x200A || n == 0x2028 || n == 0x2029 || n == 0x202F || n == 0x205F || n == 0x3000
  }

  function TrimSpace(s: string): string {
    Trim(s, IsSpace)
  }
}
