/**
  Listing the exact rules page by page (internal/rules/coordinator.go): filter by scope, sort by update time down and
  id up, cut a page out. Go's 64-bit arithmetic is written out, since the page number comes straight from the query.
 */
module RuleList {
  import opened RedisSets
  import opened RuleStore
  import opened Sorting
  import opened Wrappers

  const TWO_63 := 0x8000_0000_0000_0000
  const TWO_64 := 0x1_0000_0000_0000_0000

  const DEFAULT_PAGE_SIZE := 20
  const MAX_PAGE_SIZE := 100

  /** The value of a 64-bit int after overflow. */
  function Wrap64(n: int): int {
    (n + TWO_63) % TWO_64 - TWO_63
  }

  predicate IsInt64(n: int) {
    -TWO_63 <= n < TWO_63
  }

  /** What a request comes to; slicing with a negative bound panics. */
  datatype Listing = Listed(items: seq<ExactRule>, page: int, pageSize: int, total: nat) | Panicked

  predicate Newer(a: ExactRule, b: ExactRule) {
    if a.updatedAt == b.updatedAt then StringLess(a.id, b.id) else a.updatedAt > b.updatedAt
  }

  predicate Wanted(r: ExactRule, scope: Option<string>) {
    scope == None || ScopeKey(r.scope) == scope.value
  }

  function Filtered(rules: seq<ExactRule>, scope: Option<string>): seq<ExactRule> {
    if rules == [] then []
    else
      var r := rules[|rules| - 1];
      Filtered(rules[..|rules| - 1], scope) + (if Wanted(r, scope) then [r] else [])
  }

  /** The rules the pages are cut from. */
  function Ordered(rules: seq<ExactRule>, scope: Option<string>): seq<ExactRule> {
    Sort(Filtered(rules, scope), Newer)
  }

  function Min(a: int, b: int): int {
    if a < b then a else b
  }

  function ClampPage(page: int): int {
    if page < 1 then 1 else page
  }

  function ClampSize(pageSize: int): int {
    if pageSize < 1 then DEFAULT_PAGE_SIZE else Min(pageSize, MAX_PAGE_SIZE)
  }

  /** The page at an offset; past the end it is empty. */
  function Slice(xs: seq<ExactRule>, offset: nat, pageSize: nat): seq<ExactRule> {
    xs[Min(offset, |xs|)..Min(offset + pageSize, |xs|)]
  }

  function PageAt(xs: seq<ExactRule>, page: int, pageSize: int): Listing
    requires pageSize >= 1
  {
    var offset := Wrap64((page - 1) * pageSize);
    if offset < 0 then Panicked else Listed(Slice(xs, offset, pageSize), page, pageSize, |xs|)
  }

  method List(rules: seq<ExactRule>, scope: Option<string>, page: int, pageSize: int) returns (r: Listing)
    requires IsInt64(page) && IsInt64(pageSize) && |rules| + MAX_PAGE_SIZE < TWO_63
    ensures r == PageAt(Ordered(rules, scope), if page < 1 then 1 else page,
                        if pageSize < 1 then 20 else if pageSize > 100 then 100 else pageSize)
  {
    var p, size := page, pageSize;
    if p < 1 {
      p := 1;
    }
    if size < 1 {
      size := DEFAULT_PAGE_SIZE;
    }
    if size > MAX_PAGE_SIZE {
      size := MAX_PAGE_SIZE;
    }
    var filtered := Filter(rules, scope);
    SortPermutes(filtered, Newer);
    filtered := Sort(filtered, Newer);
    assert |filtered| == |multiset(filtered)|;
    r := CutPage(filtered, p, size);
  }

  method Filter(rules: seq<ExactRule>, scope: Option<string>) returns (filtered: seq<ExactRule>)
    ensures filtered == Filtered(rules, scope) && |filtered| <= |rules|
  {
    filtered := [];
    for i := 0 to |rules|
      invariant filtered == Filtered(rules[..i], scope) && |filtered| <= i
    {
      assert rules[..i + 1][..i] == rules[..i];
      if scope.Some? && ScopeKey(rules[i].scope) != scope.value {
        continue;
      }
      filtered := filtered + [rules[i]];
    }
    assert rules[..|rules|] == rules;
  }

  method CutPage(xs: seq<ExactRule>, page: int, pageSize: int) returns (r: Listing)
    requires 1 <= pageSize <= MAX_PAGE_SIZE && |xs| + MAX_PAGE_SIZE < TWO_63
    ensures r == PageAt(xs, page, pageSize)
  {
    var total := |xs|;
    var start := Wrap64((page - 1) * pageSize);
    if start > total {
      start := total;
    }
    var end := Wrap64(start + pageSize);
    if end > total {
      end := total;
    }
    if start < 0 || end < start {
      return Panicked;
    }
    r := Listed(xs[start..end], page, pageSize, total);
  }

  // ---------------------------------------------------------------------------------------------------
  // The pages make up the list
  // ---------------------------------------------------------------------------------------------------

  lemma NewerIsComparator()
    ensures Comparator(Newer)
  {
    forall a: ExactRule ensures !Newer(a, a) {
      StringLessTotal(a.id, a.id);
    }
    forall a: ExactRule, b: ExactRule, c: ExactRule | Newer(a, b) && Newer(b, c) ensures Newer(a, c) {
      StringLessTransitive(a.id, b.id, c.id);
    }
    forall a: ExactRule, b: ExactRule, c: ExactRule | Newer(a, c) ensures Newer(a, b) || Newer(b, c) {
      StringLessTotal(a.id, b.id);
      StringLessTotal(b.id, c.id);
      StringLessTransitive(b.id, a.id, c.id);
    }
  }

  /** No element twice. */
  ghost predicate Distinct<T>(xs: seq<T>) {
    forall i, j :: 0 <= i < j < |xs| ==> xs[i] != xs[j]
  }

  lemma {:induction false} FilteredHas(rules: seq<ExactRule>, scope: Option<string>, r: ExactRule)
    ensures r in Filtered(rules, scope) <==> r in rules && Wanted(r, scope)
  {
    if rules != [] {
      var n := |rules| - 1;
      FilteredHas(rules[..n], scope, r);
      assert r in rules <==> r in rules[..n] || r == rules[n];
    }
  }

  lemma {:induction false} FilteredDistinct(rules: seq<ExactRule>, scope: Option<string>)
    requires Distinct(rules)
    ensures Distinct(Filtered(rules, scope))
  {
    if rules != [] {
      var n := |rules| - 1;
      FilteredDistinct(rules[..n], scope);
      FilteredHas(rules[..n], scope, rules[n]);
    }
  }

  lemma {:induction false} DistinctCounts<T>(xs: seq<T>, x: T)
    requires Distinct(xs)
    ensures multiset(xs)[x] == if x in xs then 1 else 0
  {
    if xs != [] {
      DistinctCounts(xs[1..], x);
      assert xs == [xs[0]] + xs[1..];
      assert x == xs[0] ==> x !in xs[1..];
    }
  }

  lemma SameElementsSameMultiset<T(!new)>(xs: seq<T>, ys: seq<T>)
    requires Distinct(xs) && Distinct(ys) && forall x :: x in xs <==> x in ys
    ensures multiset(xs) == multiset(ys)
  {
    forall x: T ensures multiset(xs)[x] == multiset(ys)[x] {
      DistinctCounts(xs, x);
      DistinctCounts(ys, x);
    }
  }

  /** Distinct rules of a consistent store have distinct ids, so the order tells them apart. */
  ghost predicate DistinctIds(rules: seq<ExactRule>) {
    forall a, b :: a in rules && b in rules && a != b ==> a.id != b.id
  }

  /**
    The list is sorted, holds each rule of the scope exactly once and nothing else, and is the only such list: it does
    not depend on the order in which the rules came out of Redis.
   */
  lemma OrderedIsCanonical(rules: seq<ExactRule>, scope: Option<string>)
    requires Distinct(rules) && DistinctIds(rules)
    ensures var xs := Ordered(rules, scope);
      && Sorted(xs, Newer)
      && (forall r: ExactRule :: multiset(xs)[r] == if r in rules && Wanted(r, scope) then 1 else 0)
      && (forall ys :: Sorted(ys, Newer) && multiset(ys) == multiset(xs) ==> ys == xs)
  {
    var list, xs := Filtered(rules, scope), Ordered(rules, scope);
    NewerIsComparator();
    SortSorts(list, Newer);
    SortPermutes(list, Newer);
    FilteredDistinct(rules, scope);
    forall r: ExactRule ensures multiset(xs)[r] == if r in rules && Wanted(r, scope) then 1 else 0 {
      DistinctCounts(list, r);
      FilteredHas(rules, scope, r);
    }
    forall ys | Sorted(ys, Newer) && multiset(ys) == multiset(xs) ensures ys == xs {
      forall a, b | a in ys && b in ys && a != b ensures Newer(a, b) || Newer(b, a) {
        assert a in multiset(ys) && b in multiset(ys);
        StringLessTotal(a.id, b.id);
      }
      SortedIsUnique(ys, xs, Newer);
    }
  }

  /**
    Told by positions: newer before older, and at equal update times by id; and it holds those rules whose scope is the
    one asked for, no scope being the empty one, or all of them if none is asked for.
   */
  lemma OrderedNewestFirst(rules: seq<ExactRule>, scope: Option<string>)
    requires Distinct(rules) && DistinctIds(rules)
    ensures var xs := Ordered(rules, scope);
      && (forall i, j :: 0 <= i < j < |xs| ==>
            xs[i].updatedAt > xs[j].updatedAt || (xs[i].updatedAt == xs[j].updatedAt && LexBefore(xs[i].id, xs[j].id)))
      && (forall r :: r in xs <==>
            r in rules && (scope == None || r.scope == scope || (r.scope == None && scope == Some(""))))
  {
    var xs := Ordered(rules, scope);
    OrderedIsCanonical(rules, scope);
    forall r ensures r in xs <==>
                     r in rules && (scope == None || r.scope == scope || (r.scope == None && scope == Some("")))
    {
      assert r in xs <==> r in multiset(xs);
    }
    forall i, j | 0 <= i < j < |xs|
      ensures xs[i].updatedAt > xs[j].updatedAt || (xs[i].updatedAt == xs[j].updatedAt && LexBefore(xs[i].id, xs[j].id))
    {
      RepeatCounts(xs, i, j);
      StringLessTotal(xs[i].id, xs[j].id);
      StringLessIff(xs[i].id, xs[j].id);
    }
  }

  lemma RepeatCounts(xs: seq<ExactRule>, i: nat, j: nat)
    requires i < j < |xs|
    ensures xs[i] == xs[j] ==> multiset(xs)[xs[j]] >= 2
  {
    assert xs == xs[..j] + [xs[j]] + xs[j + 1..];
    assert multiset(xs) == multiset(xs[..j]) + multiset{xs[j]} + multiset(xs[j + 1..]);
    assert xs[i] in xs[..j];
  }

  lemma ListingOrderIsIrrelevant(rules: seq<ExactRule>, rules': seq<ExactRule>, scope: Option<string>)
    requires Distinct(rules) && DistinctIds(rules) && multiset(rules) == multiset(rules')
    ensures Ordered(rules, scope) == Ordered(rules', scope)
  {
    SameFilteredMultiset(rules, rules', scope);
    var list, list' := Filtered(rules, scope), Filtered(rules', scope);
    NewerIsComparator();
    SortSorts(list, Newer);
    SortSorts(list', Newer);
    SortPermutes(list, Newer);
    SortPermutes(list', Newer);
    forall a, b | a in Sort(list, Newer) && b in Sort(list, Newer) && a != b ensures Newer(a, b) || Newer(b, a) {
      assert a in multiset(list) && b in multiset(list);
      FilteredHas(rules, scope, a);
      FilteredHas(rules, scope, b);
      StringLessTotal(a.id, b.id);
    }
    SortedIsUnique(Sort(list, Newer), Sort(list', Newer), Newer);
  }

  lemma SameFilteredMultiset(rules: seq<ExactRule>, rules': seq<ExactRule>, scope: Option<string>)
    requires Distinct(rules) && multiset(rules) == multiset(rules')
    ensures multiset(Filtered(rules, scope)) == multiset(Filtered(rules', scope))
  {
    MultisetDistinct(rules, rules');
    FilteredDistinct(rules, scope);
    FilteredDistinct(rules', scope);
    forall r: ExactRule ensures r in Filtered(rules, scope) <==> r in Filtered(rules', scope) {
      FilteredHas(rules, scope, r);
      FilteredHas(rules', scope, r);
      assert r in rules <==> r in multiset(rules);
      assert r in rules' <==> r in multiset(rules');
    }
    SameElementsSameMultiset(Filtered(rules, scope), Filtered(rules', scope));
  }

  lemma MultisetDistinct<T(!new)>(xs: seq<T>, ys: seq<T>)
    requires Distinct(xs) && multiset(xs) == multiset(ys)
    ensures Distinct(ys)
  {
    forall i, j | 0 <= i < j < |ys| ensures ys[i] != ys[j] {
      DistinctCounts(xs, ys[i]);
      assert ys == ys[..j] + [ys[j]] + ys[j + 1..];
      assert multiset(ys) == multiset(ys[..j]) + multiset{ys[j]} + multiset(ys[j + 1..]);
      assert ys[i] in ys[..j];
    }
  }

  lemma {:induction false} StoredRulesDistinct(st: Store, listing: seq<string>)
    requires Inv(st) && forall i, j :: 0 <= i < j < |listing| ==> listing[i] != listing[j]
    ensures Distinct(RulesOf(st, listing)) && DistinctIds(RulesOf(st, listing))
  {
    if listing != [] {
      var n := |listing| - 1;
      StoredRulesDistinct(st, listing[..n]);
      forall r | r in RulesOf(st, listing[..n]) ensures r.id in listing[..n] && r.id in st.rules && st.rules[r.id] == r {
        RulesOfListing(st, listing[..n], r);
      }
    }
  }

  /** What `List` pages through, for a consistent store: its rules of the scope, whatever the order of the listing. */
  lemma StoreListIsCanonical(st: Store, listing: seq<string>, listing': seq<string>, scope: Option<string>)
    requires Inv(st) && Lists(listing, st.ids) && Lists(listing', st.ids)
    ensures Ordered(RulesOf(st, listing), scope) == Ordered(RulesOf(st, listing'), scope)
    ensures forall r: ExactRule :: multiset(Ordered(RulesOf(st, listing), scope))[r]
              == if r.id in st.rules && st.rules[r.id] == r && Wanted(r, scope) then 1 else 0
    ensures Sorted(Ordered(RulesOf(st, listing), scope), Newer)
  {
    ListedOnce(listing, st.ids);
    ListedOnce(listing', st.ids);
    StoredRulesDistinct(st, listing);
    StoredRulesDistinct(st, listing');
    var a, b := RulesOf(st, listing), RulesOf(st, listing');
    assert forall id :: id in listing <==> id in (set x | x in listing);
    assert forall id :: id in listing' <==> id in (set x | x in listing');
    forall r: ExactRule ensures (r in a <==> r in b) && (r in a <==> r.id in st.rules && st.rules[r.id] == r) {
      RulesOfListing(st, listing, r);
      RulesOfListing(st, listing', r);
    }
    SameElementsSameMultiset(a, b);
    ListingOrderIsIrrelevant(a, b, scope);
    OrderedIsCanonical(a, scope);
  }

  /** Pages 1 to n, one after the other. */
  function Pages(xs: seq<ExactRule>, pageSize: int, n: nat): seq<ExactRule>
    requires pageSize >= 1 && forall p :: 1 <= p <= n ==> PageAt(xs, p, pageSize).Listed?
  {
    if n == 0 then [] else Pages(xs, pageSize, n - 1) + PageAt(xs, n, pageSize).items
  }

  /** As long as the offset fits, a page is the slice at its place, and never a panic. */
  lemma PageWithoutOverflow(xs: seq<ExactRule>, page: int, pageSize: int)
    requires page >= 1 && pageSize >= 1 && (page - 1) * pageSize < TWO_63
    ensures (page - 1) * pageSize >= 0
    ensures PageAt(xs, page, pageSize) == Listed(Slice(xs, (page - 1) * pageSize, pageSize), page, pageSize, |xs|)
  {
    NonNegative(page - 1, pageSize);
  }

  lemma NonNegative(a: int, b: int)
    requires a >= 0 && b >= 0
    ensures a * b >= 0
  {
  }

  /** The pages one after the other are the list, cut off after the last page; so enough pages are all of it. */
  lemma {:induction false} PagesMakeUpTheList(xs: seq<ExactRule>, pageSize: int, n: nat)
    requires pageSize >= 1 && n * pageSize < TWO_63
    ensures forall p :: 1 <= p <= n ==> PageAt(xs, p, pageSize).Listed? && PageAt(xs, p, pageSize).total == |xs|
    ensures n * pageSize >= 0
    ensures Pages(xs, pageSize, n) == xs[..Min(n * pageSize, |xs|)]
    ensures n * pageSize >= |xs| ==> Pages(xs, pageSize, n) == xs
  {
    hide PageAt, Slice;
    NonNegative(n, pageSize);
    if n > 0 {
      assert n * pageSize == (n - 1) * pageSize + pageSize;
      PagesMakeUpTheList(xs, pageSize, n - 1);
      PageWithoutOverflow(xs, n, pageSize);
      SliceExtends(xs, (n - 1) * pageSize, pageSize);
    }
  }

  lemma SliceExtends(xs: seq<ExactRule>, offset: nat, pageSize: nat)
    ensures xs[..Min(offset + pageSize, |xs|)] == xs[..Min(offset, |xs|)] + Slice(xs, offset, pageSize)
  {
  }

  /** The items of a page, one by one: item k of page p is rule (p - 1) * pageSize + k, as far as there are such. */
  lemma PageItems(xs: seq<ExactRule>, page: int, pageSize: int)
    requires page >= 1 && pageSize >= 1 && (page - 1) * pageSize < TWO_63
    ensures PageAt(xs, page, pageSize).Listed?
    ensures var r, first := PageAt(xs, page, pageSize), (page - 1) * pageSize;
      && r.page == page && r.pageSize == pageSize && r.total == |xs| && first >= 0
      && |r.items| == (if first >= |xs| then 0 else if |xs| - first < pageSize then |xs| - first else pageSize)
      && forall k :: 0 <= k < |r.items| ==> r.items[k] == xs[first + k]
  {
    PageWithoutOverflow(xs, page, pageSize);
  }

  /** A page past the end is empty. */
  lemma PastTheEnd(xs: seq<ExactRule>, page: int, pageSize: int)
    requires page >= 1 && pageSize >= 1 && |xs| <= (page - 1) * pageSize < TWO_63
    ensures PageAt(xs, page, pageSize) == Listed([], page, pageSize, |xs|)
  {
  }

  /** The page a caller expects, computed without overflow. */
  function Expected(xs: seq<ExactRule>, page: int, pageSize: int): Listing
    requires page >= 1 && pageSize >= 1
  {
    NonNegative(page - 1, pageSize);
    Listed(Slice(xs, (page - 1) * pageSize, pageSize), page, pageSize, |xs|)
  }

  /**
    For arbitrary page numbers the expectation fails, and this is exactly when it holds: the offset fits into 64 bits,
    or what it wraps around to lies past the end as well.
   */
  lemma PageIsRightIff(xs: seq<ExactRule>, page: int, pageSize: int)
    requires page >= 1 && 1 <= pageSize <= MAX_PAGE_SIZE && |xs| + MAX_PAGE_SIZE < TWO_63
    ensures var offset := (page - 1) * pageSize;
      PageAt(xs, page, pageSize) == Expected(xs, page, pageSize) <==> offset < TWO_63 || Wrap64(offset) >= |xs|
  {
    NonNegative(page - 1, pageSize);
    var offset := (page - 1) * pageSize;
    if offset < TWO_63 {
      PageWithoutOverflow(xs, page, pageSize);
    } else {
      assert Slice(xs, offset, pageSize) == [];
      var w := Wrap64(offset);
      if 0 <= w < |xs| {
        assert |Slice(xs, w, pageSize)| > 0;
      }
    }
  }

  /** Two page numbers that fit into 64 bits and go wrong: one brings the first page again, the other a panic. */
  lemma OverflowExamples(xs: seq<ExactRule>)
    requires xs != []
    ensures IsInt64(0x400_0000_0000_0001) && IsInt64(TWO_63 - 1)
    ensures PageAt(xs, 0x400_0000_0000_0001, 64) == Listed(Slice(xs, 0, 64), 0x400_0000_0000_0001, 64, |xs|)
    ensures PageAt(xs, TWO_63 - 1, 100) == Panicked
  {
    assert Wrap64((TWO_63 - 2) * 100) == -200;
  }
}
