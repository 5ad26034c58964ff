/**
  Sorting by a comparator, as sort.Slice is used by the rule indexes. Go's algorithm is not stable; the last lemma
  shows that this does not matter where the comparator tells any two elements apart.
 */
module Sorting {

  /** A comparator as sort.Slice wants it: irreflexive, and what is not before goes along with what is. */
  ghost predicate Comparator<T(!new)>(less: (T, T) -> bool) {
    && (forall a :: !less(a, a))
    && (forall a, b, c :: less(a, b) && less(b, c) ==> less(a, c))
    && (forall a, b, c :: less(a, c) ==> less(a, b) || less(b, c))
  }

  ghost predicate Sorted<T>(xs: seq<T>, less: (T, T) -> bool) {
    forall i, j :: 0 <= i < j < |xs| ==> !less(xs[j], xs[i])
  }

  function Insert<T>(x: T, xs: seq<T>, less: (T, T) -> bool): seq<T> {
    if xs == [] || less(x, xs[0]) then [x] + xs else [xs[0]] + Insert(x, xs[1..], less)
  }

  function Sort<T>(xs: seq<T>, less: (T, T) -> bool): seq<T> {
    if xs == [] then [] else Insert(xs[0], Sort(xs[1..], less), less)
  }

  lemma {:induction false} InsertKeepsAll<T>(x: T, xs: seq<T>, less: (T, T) -> bool)
    ensures multiset(Insert(x, xs, less)) == multiset{x} + multiset(xs)
  {
    if !(xs == [] || less(x, xs[0])) {
      InsertKeepsAll(x, xs[1..], less);
      assert xs == [xs[0]] + xs[1..];
    }
  }

  lemma {:induction false} SortPermutes<T>(xs: seq<T>, less: (T, T) -> bool)
    ensures multiset(Sort(xs, less)) == multiset(xs)
  {
    if xs != [] {
      SortPermutes(xs[1..], less);
      InsertKeepsAll(xs[0], Sort(xs[1..], less), less);
      assert xs == [xs[0]] + xs[1..];
    }
  }

  lemma {:induction false} InsertSorts<T(!new)>(x: T, xs: seq<T>, less: (T, T) -> bool)
    requires Comparator(less) && Sorted(xs, less)
    ensures Sorted(Insert(x, xs, less), less)
  {
    if !(xs == [] || less(x, xs[0])) {
      var rest := Insert(x, xs[1..], less);
      InsertSorts(x, xs[1..], less);
      InsertKeepsAll(x, xs[1..], less);
      forall j | 0 <= j < |rest| ensures !less(rest[j], xs[0]) {
        assert rest[j] in multiset(rest);
        assert rest[j] == x || rest[j] in xs[1..];
      }
    }
  }

  lemma {:induction false} SortSorts<T(!new)>(xs: seq<T>, less: (T, T) -> bool)
    requires Comparator(less)
    ensures Sorted(Sort(xs, less), less)
  {
    if xs != [] {
      SortSorts(xs[1..], less);
      InsertSorts(xs[0], Sort(xs[1..], less), less);
    }
  }

  /** Different elements of the list are never level. */
  ghost predicate Distinguishes<T>(xs: seq<T>, less: (T, T) -> bool) {
    forall a, b :: a in xs && b in xs && a != b ==> less(a, b) || less(b, a)
  }

  /** Any two sorted arrangements of the same elements are then the same sequence. */
  lemma {:induction false} SortedIsUnique<T(!new)>(xs: seq<T>, ys: seq<T>, less: (T, T) -> bool)
    requires Sorted(xs, less) && Sorted(ys, less)
    requires multiset(xs) == multiset(ys) && Distinguishes(xs, less)
    ensures xs == ys
  {
    hide Sorted, Distinguishes;
    assert |xs| == |multiset(xs)| == |multiset(ys)| == |ys|;
    if xs != [] {
      SameHead(xs, ys, less);
      WithoutHead(xs);
      WithoutHead(ys);
      TailKeepsOrder(xs, less);
      TailKeepsOrder(ys, less);
      SortedIsUnique(xs[1..], ys[1..], less);
      assert xs == [xs[0]] + xs[1..] && ys == [ys[0]] + ys[1..];
    }
  }

  lemma TailKeepsOrder<T(!new)>(xs: seq<T>, less: (T, T) -> bool)
    requires xs != []
    ensures Sorted(xs, less) ==> Sorted(xs[1..], less)
    ensures Distinguishes(xs, less) ==> Distinguishes(xs[1..], less)
  {
    assert forall a :: a in xs[1..] ==> a in xs;
  }

  lemma WithoutHead<T(!new)>(xs: seq<T>)
    requires xs != []
    ensures multiset(xs[1..]) == multiset(xs) - multiset{xs[0]}
  {
    assert xs == [xs[0]] + xs[1..];
  }

  lemma SameHead<T(!new)>(xs: seq<T>, ys: seq<T>, less: (T, T) -> bool)
    requires Sorted(xs, less) && Sorted(ys, less) && Distinguishes(xs, less)
    requires multiset(xs) == multiset(ys) && xs != [] && ys != []
    ensures xs[0] == ys[0]
  {
    assert xs[0] in multiset(ys) && ys[0] in multiset(xs);
    var i :| 0 <= i < |ys| && ys[i] == xs[0];
    var j :| 0 <= j < |xs| && xs[j] == ys[0];
  }

  // ---------------------------------------------------------------------------------------------------
  // Go's order on strings: UTF-8 bytes compare as code points do
  // ---------------------------------------------------------------------------------------------------

  predicate StringLess(a: string, b: string) {
    if b == [] then false
    else if a == [] then true
    else a[0] < b[0] || (a[0] == b[0] && StringLess(a[1..], b[1..]))
  }

  /** a is a proper beginning of b, or has the smaller code point where they first differ. */
  ghost predicate LexBefore(a: string, b: string) {
    exists k: nat :: k <= |a| && k <= |b| && a[..k] == b[..k] && ((k == |a| < |b|) || (k < |a| && k < |b| && a[k] < b[k]))
  }

  lemma {:induction false} StringLessIff(a: string, b: string)
    ensures StringLess(a, b) <==> LexBefore(a, b)
  {
    if a == [] || b == [] {
      assert a[..0] == b[..0];
    } else {
      StringLessIff(a[1..], b[1..]);
      if a[0] == b[0] && LexBefore(a[1..], b[1..]) {
        var k: nat :| k <= |a[1..]| && k <= |b[1..]| && a[1..][..k] == b[1..][..k]
                      && ((k == |a[1..]| < |b[1..]|) || (k < |a[1..]| && k < |b[1..]| && a[1..][k] < b[1..][k]));
        assert a[..k + 1] == [a[0]] + a[1..][..k] && b[..k + 1] == [b[0]] + b[1..][..k];
        assert LexBefore(a, b);
      }
      if a[0] < b[0] {
        assert a[..0] == b[..0];
      }
      if LexBefore(a, b) {
        var k: nat :| k <= |a| && k <= |b| && a[..k] == b[..k]
                      && ((k == |a| < |b|) || (k < |a| && k < |b| && a[k] < b[k]));
        if k > 0 {
          assert a[0] == a[..k][0] == b[..k][0] == b[0];
          assert a[1..][..k - 1] == a[..k][1..] == b[..k][1..] == b[1..][..k - 1];
          assert LexBefore(a[1..], b[1..]);
        }
      }
    }
  }

  lemma {:induction false} StringLessTransitive(a: string, b: string, c: string)
    ensures StringLess(a, b) && StringLess(b, c) ==> StringLess(a, c)
  {
    if a != [] && b != [] && c != [] {
      StringLessTransitive(a[1..], b[1..], c[1..]);
    }
  }

  lemma {:induction false} StringLessTotal(a: string, b: string)
    ensures a != b <==> StringLess(a, b) || StringLess(b, a)
    ensures !(StringLess(a, b) && StringLess(b, a))
  {
    if a != [] && b != [] {
      StringLessTotal(a[1..], b[1..]);
      if a[0] == b[0] {
        assert a == [a[0]] + a[1..] && b == [b[0]] + b[1..];
      }
    }
  }
}
