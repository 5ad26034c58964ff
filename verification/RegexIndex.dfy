/**
  The in-memory index of the regex rules (internal/rules/regex_memory_index.go): grouped by scope, sorted within a
  scope, first match wins. Compiling and matching are parameters.
 */
module RegexIndex {
  import opened Sorting
  import opened Wrappers
  import opened RuleStore

  datatype RegexRule = RegexRule(
    id: string, scope: Option<string>, pattern: string, dat: string, priority: int, updated: int)

  /** What the regexp package makes of a pattern. */
  datatype Engine = Engine(compiles: string -> bool, matches: (string, string) -> bool)

  datatype Hit = Hit(id: string, dat: string)

  /** The comparator: priority down, then update time down, then id up. */
  predicate Before(a: RegexRule, b: RegexRule) {
    if a.priority != b.priority then a.priority > b.priority
    else if a.updated != b.updated then a.updated > b.updated
    else StringLess(a.id, b.id)
  }

  lemma BeforeIsComparator()
    ensures Comparator(Before)
  {
    forall a: RegexRule ensures !Before(a, a) {
      StringLessTotal(a.id, a.id);
    }
    forall a: RegexRule, b: RegexRule, c: RegexRule | Before(a, b) && Before(b, c) ensures Before(a, c) {
      StringLessTransitive(a.id, b.id, c.id);
    }
    forall a: RegexRule, b: RegexRule, c: RegexRule | Before(a, c) ensures Before(a, b) || Before(b, c) {
      StringLessTotal(a.id, b.id);
      StringLessTotal(b.id, c.id);
      StringLessTransitive(b.id, a.id, c.id);
    }
  }

  predicate InGroup(r: RegexRule, scope: string) {
    ScopeKey(r.scope) == scope
  }

  function Group(rules: seq<RegexRule>, scope: string): seq<RegexRule> {
    if rules == [] then []
    else
      var r := rules[|rules| - 1];
      Group(rules[..|rules| - 1], scope) + (if InGroup(r, scope) then [r] else [])
  }

  function Compiled(e: Engine, rules: seq<RegexRule>): seq<RegexRule> {
    if rules == [] then []
    else
      var r := rules[|rules| - 1];
      Compiled(e, rules[..|rules| - 1]) + (if e.compiles(r.pattern) then [r] else [])
  }

  /** The list a scope ends up with. */
  function Ranked(e: Engine, rules: seq<RegexRule>, scope: string): seq<RegexRule> {
    Sort(Compiled(e, Group(rules, scope)), Before)
  }

  function FirstMatch(e: Engine, ranked: seq<RegexRule>, query: string): Option<Hit> {
    if ranked == [] then None
    else if e.matches(ranked[0].pattern, query) then Some(Hit(ranked[0].id, ranked[0].dat))
    else FirstMatch(e, ranked[1..], query)
  }

  function Scopes(rules: seq<RegexRule>): set<string> {
    set r | r in rules :: ScopeKey(r.scope)
  }

  /** A scope without an entry reads as an empty list. */
  function ListFor(byScope: map<string, seq<RegexRule>>, scope: string): seq<RegexRule> {
    if scope in byScope then byScope[scope] else []
  }

  class RegexMemoryIndex {
    const engine: Engine
    var byScope: map<string, seq<RegexRule>>

    constructor (engine: Engine)
      ensures byScope == map[] && this.engine == engine
    {
      this.engine := engine;
      byScope := map[];
    }

    method ReplaceAll(rules: seq<RegexRule>)
      modifies this
      ensures byScope.Keys == Scopes(rules)
      ensures forall scope :: ListFor(byScope, scope) == Ranked(engine, rules, scope)
    {
      var grouped := GroupAll(rules);
      byScope := RankAll(engine, rules, grouped);
      forall scope ensures ListFor(byScope, scope) == Ranked(engine, rules, scope) {
        NoGroup(rules, scope);
      }
    }

    method Match(scope: string, query: string) returns (hit: Option<Hit>)
      ensures hit == FirstMatch(engine, ListFor(byScope, scope), query)
    {
      var list := ListFor(byScope, scope);
      for i := 0 to |list|
        invariant FirstMatch(engine, list, query) == FirstMatch(engine, list[i..], query)
      {
        var c := list[i];
        if engine.matches(c.pattern, query) {
          return Some(Hit(c.id, c.dat));
        }
      }
      hit := None;
    }
  }

  method GroupAll(rules: seq<RegexRule>) returns (grouped: map<string, seq<RegexRule>>)
    ensures grouped.Keys == Scopes(rules)
    ensures forall scope :: scope in grouped ==> grouped[scope] == Group(rules, scope)
  {
    grouped := map[];
    for i := 0 to |rules|
      invariant grouped.Keys == Scopes(rules[..i])
      invariant forall scope :: scope in grouped ==> grouped[scope] == Group(rules[..i], scope)
    {
      OneMoreGrouped(rules, i);
      var sk := ScopeKey(rules[i].scope);
      NoGroup(rules[..i], sk);
      grouped := grouped[sk := (if sk in grouped then grouped[sk] else []) + [rules[i]]];
    }
    assert rules[..|rules|] == rules;
  }

  lemma OneMoreGrouped(rules: seq<RegexRule>, i: nat)
    requires i < |rules|
    ensures Scopes(rules[..i + 1]) == Scopes(rules[..i]) + {ScopeKey(rules[i].scope)}
    ensures forall scope :: Group(rules[..i + 1], scope)
                            == Group(rules[..i], scope) + (if InGroup(rules[i], scope) then [rules[i]] else [])
  {
    assert rules[..i + 1][..i] == rules[..i];
    assert rules[..i + 1] == rules[..i] + [rules[i]];
  }

  /** The groups are visited in whatever order Go ranges over its map. */
  method RankAll(e: Engine, rules: seq<RegexRule>, grouped: map<string, seq<RegexRule>>)
    returns (next: map<string, seq<RegexRule>>)
    requires forall scope :: scope in grouped ==> grouped[scope] == Group(rules, scope)
    ensures next.Keys == grouped.Keys
    ensures forall scope :: scope in next ==> next[scope] == Ranked(e, rules, scope)
  {
    next := map[];
    var todo := grouped.Keys;
    while todo != {}
      invariant todo <= grouped.Keys && next.Keys == grouped.Keys - todo
      invariant forall scope :: scope in next ==> next[scope] == Ranked(e, rules, scope)
      decreases todo
    {
      var sk :| sk in todo;
      var compiled := CompileAll(e, grouped[sk]);
      next := next[sk := Sort(compiled, Before)];
      todo := todo - {sk};
    }
  }

  /** Rules whose pattern does not compile are skipped. */
  method CompileAll(e: Engine, list: seq<RegexRule>) returns (out: seq<RegexRule>)
    ensures out == Compiled(e, list)
  {
    out := [];
    for i := 0 to |list|
      invariant out == Compiled(e, list[..i])
    {
      assert list[..i + 1][..i] == list[..i];
      if e.compiles(list[i].pattern) {
        out := out + [list[i]];
      }
    }
    assert list[..|list|] == list;
  }

  lemma {:induction false} NoGroup(rules: seq<RegexRule>, scope: string)
    ensures scope !in Scopes(rules) ==> Group(rules, scope) == []
  {
    if rules != [] {
      NoGroup(rules[..|rules| - 1], scope);
    }
  }

  // ---------------------------------------------------------------------------------------------------
  // The match is the best match
  // ---------------------------------------------------------------------------------------------------

  ghost predicate DistinctIds(rules: seq<RegexRule>) {
    forall i, j :: 0 <= i < j < |rules| ==> rules[i].id != rules[j].id
  }

  /** The rule can answer the query in this scope. */
  predicate Answers(e: Engine, r: RegexRule, scope: string, query: string) {
    InGroup(r, scope) && e.compiles(r.pattern) && e.matches(r.pattern, query)
  }

  /** r answers, and ranks before every other rule that does. */
  ghost predicate Best(e: Engine, rules: seq<RegexRule>, scope: string, query: string, r: RegexRule) {
    && r in rules && Answers(e, r, scope, query)
    && forall other :: other in rules && Answers(e, other, scope, query) && other != r ==> Before(r, other)
  }

  lemma {:induction false} GroupHas(rules: seq<RegexRule>, scope: string, r: RegexRule)
    ensures r in Group(rules, scope) <==> r in rules && InGroup(r, scope)
  {
    if rules != [] {
      var n := |rules| - 1;
      GroupHas(rules[..n], scope, r);
      assert r in rules <==> r in rules[..n] || r == rules[n];
    }
  }

  lemma {:induction false} CompiledHas(e: Engine, rules: seq<RegexRule>, r: RegexRule)
    ensures r in Compiled(e, rules) <==> r in rules && e.compiles(r.pattern)
  {
    if rules != [] {
      var n := |rules| - 1;
      CompiledHas(e, rules[..n], r);
      assert r in rules <==> r in rules[..n] || r == rules[n];
    }
  }

  lemma RankedHas(e: Engine, rules: seq<RegexRule>, scope: string, r: RegexRule)
    ensures r in Ranked(e, rules, scope) <==> r in rules && InGroup(r, scope) && e.compiles(r.pattern)
  {
    GroupHas(rules, scope, r);
    CompiledHas(e, Group(rules, scope), r);
    SortPermutes(Compiled(e, Group(rules, scope)), Before);
    assert r in multiset(Sort(Compiled(e, Group(rules, scope)), Before)) <==> r in multiset(Compiled(e, Group(rules, scope)));
  }

  lemma {:induction false} FirstMatchIs(e: Engine, ranked: seq<RegexRule>, query: string) returns (i: nat)
    ensures i <= |ranked|
    ensures forall j :: 0 <= j < i ==> !e.matches(ranked[j].pattern, query)
    ensures i < |ranked| ==> e.matches(ranked[i].pattern, query)
                             && FirstMatch(e, ranked, query) == Some(Hit(ranked[i].id, ranked[i].dat))
    ensures i == |ranked| ==> FirstMatch(e, ranked, query) == None
  {
    i := 0;
    if ranked != [] && !e.matches(ranked[0].pattern, query) {
      var k := FirstMatchIs(e, ranked[1..], query);
      i := k + 1;
      forall j | 0 <= j < i ensures !e.matches(ranked[j].pattern, query) {
        assert j > 0 ==> ranked[j] == ranked[1..][j - 1];
      }
    }
  }

  /**
    For any rules with distinct ids, the hit is the matching, compilable rule of the scope that ranks first, and there
    is none only if no rule matches.
   */
  lemma MatchIsBest(e: Engine, rules: seq<RegexRule>, scope: string, query: string)
    requires DistinctIds(rules)
    ensures var hit := FirstMatch(e, Ranked(e, rules, scope), query);
      && (hit.None? <==> !exists r :: r in rules && Answers(e, r, scope, query))
      && (forall r :: Best(e, rules, scope, query, r) ==> hit == Some(Hit(r.id, r.dat)))
      && (hit.Some? ==> exists r :: Best(e, rules, scope, query, r))
  {
    hide Sort, Group, Compiled, FirstMatch;
    var ranked := Ranked(e, rules, scope);
    var i := FirstMatchIs(e, ranked, query);
    BeforeIsComparator();
    SortSorts(Compiled(e, Group(rules, scope)), Before);
    forall r | r in rules && Answers(e, r, scope, query) ensures r in ranked {
      RankedHas(e, rules, scope, r);
    }
    if i < |ranked| {
      RankedHas(e, rules, scope, ranked[i]);
      forall other | other in rules && Answers(e, other, scope, query) && other != ranked[i]
        ensures Before(ranked[i], other)
      {
        RankedHas(e, rules, scope, other);
        var j :| 0 <= j < |ranked| && ranked[j] == other;
        assert j > i && !Before(other, ranked[i]);
        DifferentIds(rules, ranked[i], other);
        StringLessTotal(ranked[i].id, other.id);
      }
      assert Best(e, rules, scope, query, ranked[i]);
    }
  }

  /** Told by the fields: highest priority, then latest update, then first id in the order of code points. */
  lemma MatchByFields(e: Engine, rules: seq<RegexRule>, scope: string, query: string)
    requires DistinctIds(rules)
    requires exists r :: r in rules && ScopeKey(r.scope) == scope && e.compiles(r.pattern) && e.matches(r.pattern, query)
    ensures exists r ::
      && r in rules && ScopeKey(r.scope) == scope && e.compiles(r.pattern) && e.matches(r.pattern, query)
      && FirstMatch(e, Ranked(e, rules, scope), query) == Some(Hit(r.id, r.dat))
      && forall o :: o in rules && o != r && ScopeKey(o.scope) == scope && e.compiles(o.pattern) && e.matches(o.pattern, query)
           ==> || r.priority > o.priority
               || (r.priority == o.priority && r.updated > o.updated)
               || (r.priority == o.priority && r.updated == o.updated && LexBefore(r.id, o.id))
  {
    hide FirstMatch, Ranked;
    MatchIsBest(e, rules, scope, query);
    var any :| any in rules && ScopeKey(any.scope) == scope && e.compiles(any.pattern) && e.matches(any.pattern, query);
    assert Answers(e, any, scope, query);
    var r :| Best(e, rules, scope, query, r);
    forall o | o in rules && o != r && ScopeKey(o.scope) == scope && e.compiles(o.pattern) && e.matches(o.pattern, query)
      ensures || r.priority > o.priority
              || (r.priority == o.priority && r.updated > o.updated)
              || (r.priority == o.priority && r.updated == o.updated && LexBefore(r.id, o.id))
    {
      assert Answers(e, o, scope, query);
      StringLessIff(r.id, o.id);
    }
  }

  lemma DifferentIds(rules: seq<RegexRule>, a: RegexRule, b: RegexRule)
    requires DistinctIds(rules) && a in rules && b in rules && a != b
    ensures a.id != b.id
  {
    var i :| 0 <= i < |rules| && rules[i] == a;
    var j :| 0 <= j < |rules| && rules[j] == b;
    if i < j { assert rules[i].id != rules[j].id; } else { assert rules[j].id != rules[i].id; }
  }

  /** The index does not depend on the order in which the rules were listed, nor on how the list is sorted. */
  lemma RankingIgnoresOrder(e: Engine, rules: seq<RegexRule>, rules': seq<RegexRule>, scope: string, query: string)
    requires DistinctIds(rules) && DistinctIds(rules')
    requires forall r :: r in rules <==> r in rules'
    ensures FirstMatch(e, Ranked(e, rules, scope), query) == FirstMatch(e, Ranked(e, rules', scope), query)
  {
    MatchIsBest(e, rules, scope, query);
    MatchIsBest(e, rules', scope, query);
    var hit := FirstMatch(e, Ranked(e, rules, scope), query);
    if hit.Some? {
      var r :| Best(e, rules, scope, query, r);
      assert Best(e, rules', scope, query, r);
    }
  }

  /** Whatever sorted arrangement the library's unstable sort comes up with, it is the ranking. */
  lemma AnySortWillDo(e: Engine, rules: seq<RegexRule>, scope: string, sorted: seq<RegexRule>)
    requires DistinctIds(rules)
    requires multiset(sorted) == multiset(Compiled(e, Group(rules, scope))) && Sorted(sorted, Before)
    ensures sorted == Ranked(e, rules, scope)
  {
    var list := Compiled(e, Group(rules, scope));
    BeforeIsComparator();
    SortSorts(list, Before);
    SortPermutes(list, Before);
    forall a, b | a in sorted && b in sorted && a != b ensures Before(a, b) || Before(b, a) {
      assert a in multiset(list) && b in multiset(list);
      CompiledHas(e, Group(rules, scope), a);
      CompiledHas(e, Group(rules, scope), b);
      GroupHas(rules, scope, a);
      GroupHas(rules, scope, b);
      DifferentIds(rules, a, b);
      StringLessTotal(a.id, b.id);
    }
    SortedIsUnique(sorted, Ranked(e, rules, scope), Before);
  }
}
