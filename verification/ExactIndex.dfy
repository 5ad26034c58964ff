/**
  The in-memory index of the exact rules (internal/rules/memory_index.go) and the coordinator that keeps it in step
  with Redis (internal/rules/coordinator.go). `Reload` is taken as atomic.
 */
module ExactIndex {
  import opened RedisSets
  import opened RuleStore
  import opened Separators
  import opened Wrappers

  const NUL := '\0'

  datatype MemoryEntry = MemoryEntry(id: string, dat: string)

  function CompositeKey(scope: string, key: string): string {
    Join(scope, NUL, key)
  }

  function RuleKey(r: ExactRule): string {
    CompositeKey(ScopeKey(r.scope), r.key)
  }

  /** The map that filling in the rules one after the other leaves: the last one under a key wins. */
  function Indexed(rules: seq<ExactRule>): map<string, MemoryEntry> {
    if rules == [] then map[]
    else
      var r := rules[|rules| - 1];
      Indexed(rules[..|rules| - 1])[RuleKey(r) := MemoryEntry(r.id, r.dat)]
  }

  function Find(m: map<string, MemoryEntry>, scope: string, query: string): Option<MemoryEntry> {
    var k := CompositeKey(scope, query);
    if k in m then Some(m[k]) else None
  }

  class ExactMemoryIndex {
    var m: map<string, MemoryEntry>

    constructor ()
      ensures m == map[]
    {
      m := map[];
    }

    method ReplaceAll(rules: seq<ExactRule>)
      modifies this
      ensures m == Indexed(rules)
    {
      var next: map<string, MemoryEntry> := map[];
      for i := 0 to |rules|
        invariant next == Indexed(rules[..i])
      {
        assert rules[..i + 1][..i] == rules[..i];
        var r := rules[i];
        next := next[RuleKey(r) := MemoryEntry(r.id, r.dat)];
      }
      assert rules[..|rules|] == rules;
      m := next;
    }

    method Lookup(scope: string, query: string) returns (hit: Option<MemoryEntry>)
      ensures hit == Find(m, scope, query)
    {
      var k := CompositeKey(scope, query);
      if k !in m {
        return None;
      }
      return Some(m[k]);
    }
  }

  // ---------------------------------------------------------------------------------------------------
  // The index agrees with a search through the rules
  // ---------------------------------------------------------------------------------------------------

  /** A key of the index is the key of some rule, and its entry the last such rule's. */
  lemma {:induction false} IndexedIsLast(rules: seq<ExactRule>, k: string)
    ensures k in Indexed(rules) <==> exists i :: 0 <= i < |rules| && RuleKey(rules[i]) == k
    ensures k in Indexed(rules) ==>
      exists i :: 0 <= i < |rules| && RuleKey(rules[i]) == k && Indexed(rules)[k] == MemoryEntry(rules[i].id, rules[i].dat)
                  && forall j :: i < j < |rules| ==> RuleKey(rules[j]) != k
  {
    if rules != [] {
      var n := |rules| - 1;
      IndexedIsLast(rules[..n], k);
      if RuleKey(rules[n]) != k && k in Indexed(rules[..n]) {
        var i :| 0 <= i < n && RuleKey(rules[..n][i]) == k
                 && Indexed(rules[..n])[k] == MemoryEntry(rules[..n][i].id, rules[..n][i].dat)
                 && forall j :: i < j < n ==> RuleKey(rules[..n][j]) != k;
        assert rules[i] == rules[..n][i];
        forall j | i < j < |rules| ensures RuleKey(rules[j]) != k {
          assert j < n ==> rules[j] == rules[..n][j];
        }
      }
    }
  }

  ghost predicate NulFreeScopes(st: Store) {
    forall id :: id in st.rules ==> NUL !in ScopeKey(st.rules[id].scope)
  }

  /**
    In a consistent store, and with NUL-free scopes, the index finds exactly the one rule with that scope and key, or
    nothing if there is none - in whatever order the ids were listed.
   */
  lemma LookupIsSearch(st: Store, listing: seq<string>, scope: string, query: string)
    requires RuleStore.Inv(st) && Lists(listing, st.ids) && NulFreeScopes(st) && NUL !in scope
    ensures var hit := Find(Indexed(RulesOf(st, listing)), scope, query);
      && (hit.None? <==> !Taken(st, None, scope, query))
      && (forall id :: id in st.rules && SameScopeAndKey(st.rules[id], scope, query)
            ==> hit == Some(MemoryEntry(id, st.rules[id].dat)))
  {
    var rules, k := RulesOf(st, listing), CompositeKey(scope, query);
    IndexedIsLast(rules, k);
    forall i | 0 <= i < |rules| && RuleKey(rules[i]) == k
      ensures rules[i].id in st.rules && st.rules[rules[i].id] == rules[i] && SameScopeAndKey(rules[i], scope, query)
    {
      RulesOfListing(st, listing, rules[i]);
      JoinInjective(NUL, ScopeKey(rules[i].scope), rules[i].key, scope, query);
    }
    forall id | id in st.rules && SameScopeAndKey(st.rules[id], scope, query)
      ensures k in Indexed(rules) && Indexed(rules)[k] == MemoryEntry(id, st.rules[id].dat)
    {
      assert id in (set x | x in listing);
      RulesOfListing(st, listing, st.rules[id]);
      var i :| 0 <= i < |rules| && rules[i] == st.rules[id];
      assert RuleKey(rules[i]) == k;
      assert forall j :: 0 <= j < |rules| && RuleKey(rules[j]) == k ==> RuleIndex(rules[j]) == RuleIndex(st.rules[id]);
    }
  }

  /**
    Whatever the scopes: a lookup finds something exactly if some stored rule has that composite key, and then one such
    rule.
   */
  lemma LookupIsKeySearch(st: Store, listing: seq<string>, scope: string, query: string)
    requires RuleStore.Inv(st) && Lists(listing, st.ids)
    ensures var hit := Find(Indexed(RulesOf(st, listing)), scope, query);
      && (hit.None? <==> forall id :: id in st.rules ==> RuleKey(st.rules[id]) != CompositeKey(scope, query))
      && (hit.Some? ==> exists id :: id in st.rules && RuleKey(st.rules[id]) == CompositeKey(scope, query)
                                     && hit.value == MemoryEntry(id, st.rules[id].dat))
  {
    var rules, k := RulesOf(st, listing), CompositeKey(scope, query);
    IndexedIsLast(rules, k);
    forall i | 0 <= i < |rules| ensures rules[i].id in st.rules && st.rules[rules[i].id] == rules[i] {
      RulesOfListing(st, listing, rules[i]);
    }
    forall id | id in st.rules ensures exists i :: 0 <= i < |rules| && rules[i] == st.rules[id] {
      assert id in (set x | x in listing);
      RulesOfListing(st, listing, st.rules[id]);
    }
  }

  /** A search by scope and key after any run of admin operations on an empty store, each creation with a new id. */
  lemma LookupAfterRun(ops: seq<Op>, listing: seq<string>, scope: string, query: string)
    requires FreshIds(Empty, ops)
    requires var st := ApplyAll(Empty, ops); Lists(listing, st.ids) && NulFreeScopes(st) && NUL !in scope
    ensures var st := ApplyAll(Empty, ops);
      var hit := Find(Indexed(RulesOf(st, listing)), scope, query);
      && (hit.None? <==> !Taken(st, None, scope, query))
      && (forall id :: id in st.rules && SameScopeAndKey(st.rules[id], scope, query)
            ==> hit == Some(MemoryEntry(id, st.rules[id].dat)))
  {
    StoreStaysConsistent(Empty, ops);
    LookupIsSearch(ApplyAll(Empty, ops), listing, scope, query);
  }

  /** A rule just created answers for its scope and key, with its own text. */
  lemma CreatedIsFound(st: Store, k: Creation, id: string, now: int, listing: seq<string>)
    requires RuleStore.Inv(st) && id != "" && id !in st.rules && Create(st, k, id, now).1.Ok?
    requires var t := Create(st, k, id, now).0; Lists(listing, t.ids) && NulFreeScopes(t)
    ensures Find(Indexed(RulesOf(Create(st, k, id, now).0, listing)), ScopeKey(k.scope), k.key)
         == Some(MemoryEntry(id, k.dat))
  {
    var t := Create(st, k, id, now).0;
    OpKeepsInv(st, DoCreate(k, id, now));
    LookupIsSearch(t, listing, ScopeKey(k.scope), k.key);
    assert SameScopeAndKey(t.rules[id], ScopeKey(k.scope), k.key);
  }

  /** A rule just updated answers under its new scope and key, and nothing does under the old ones if they changed. */
  lemma UpdatedIsFound(st: Store, id: string, p: Patch, now: int, listing: seq<string>)
    requires RuleStore.Inv(st) && Update(st, id, p, now).1.Ok?
    requires var t := Update(st, id, p, now).0; Lists(listing, t.ids) && NulFreeScopes(st) && NulFreeScopes(t)
    ensures var m, r, index := MergePatch(st.rules[id], p), st.rules[id], Indexed(RulesOf(Update(st, id, p, now).0, listing));
      && Find(index, ScopeKey(m.scope), m.key) == Some(MemoryEntry(id, m.dat))
      && (RuleIndex(m) != RuleIndex(r) ==> Find(index, ScopeKey(r.scope), r.key).None?)
  {
    hide MergePatch, RuleStore.Inv;
    var t, m, r := Update(st, id, p, now).0, MergePatch(st.rules[id], p), st.rules[id];
    OpKeepsInv(st, DoUpdate(id, p, now));
    assert SameScopeAndKey(t.rules[id], ScopeKey(m.scope), m.key);
    LookupIsSearch(t, listing, ScopeKey(m.scope), m.key);
    LookupIsSearch(t, listing, ScopeKey(r.scope), r.key);
    if RuleIndex(m) != RuleIndex(r) {
      HeldOnce(st, t, id);
    }
  }

  /** A rule just deleted no longer answers, and nothing takes its place. */
  lemma DeletedIsGone(st: Store, id: string, listing: seq<string>)
    requires RuleStore.Inv(st) && id in st.rules && NulFreeScopes(st) && Lists(listing, RuleStore.Delete(st, id).0.ids)
    ensures var r := st.rules[id];
      Find(Indexed(RulesOf(RuleStore.Delete(st, id).0, listing)), ScopeKey(r.scope), r.key).None?
  {
    hide RuleStore.Inv;
    var t, r := RuleStore.Delete(st, id).0, st.rules[id];
    OpKeepsInv(st, DoDelete(id));
    LookupIsSearch(t, listing, ScopeKey(r.scope), r.key);
    HeldOnce(st, t, id);
  }

  /** Once the one rule with some scope and key has gone elsewhere, and no other rule moved, no rule has them. */
  lemma HeldOnce(st: Store, t: Store, id: string)
    requires RuleStore.Inv(st) && id in st.rules
    requires id in t.rules ==> RuleIndex(t.rules[id]) != RuleIndex(st.rules[id])
    requires forall other :: other in t.rules && other != id ==> other in st.rules && t.rules[other] == st.rules[other]
    ensures !Taken(t, None, ScopeKey(st.rules[id].scope), st.rules[id].key)
  {
    var r := st.rules[id];
    forall other | other in t.rules ensures !SameScopeAndKey(t.rules[other], ScopeKey(r.scope), r.key) {
      assert other in st.rules ==> st.idx[RuleIndex(st.rules[other])] == other;
    }
  }

  /** One rule with scope s and key k, asked for under another scope and key. */
  predicate WrongHit(s: string, k: string, s': string, k': string) {
    Find(Indexed([ExactRule("1", Some(s), k, "", 0, 0)]), s', k').Some?
  }

  /** The NUL condition is exact: a rule can answer for another scope if and only if one scope and a NUL begin the other. */
  lemma WrongHitIff(s: string, s': string)
    requires s != s'
    ensures (exists k, k' :: k != "" && k' != "" && WrongHit(s, k, s', k')) <==> s + [NUL] <= s' || s' + [NUL] <= s
  {
    forall k, k' ensures WrongHit(s, k, s', k') <==> Join(s, NUL, k) == Join(s', NUL, k') {
      var r := ExactRule("1", Some(s), k, "", 0, 0);
      assert [r][..0] == [];
      assert Indexed([r]) == map[RuleKey(r) := MemoryEntry("1", "")];
    }
    ScopesClashIff(NUL, s, s');
    if s + [NUL] <= s' || s' + [NUL] <= s {
      var k, k' :| k != [] && k' != [] && Join(s, NUL, k) == Join(s', NUL, k');
      assert WrongHit(s, k, s', k');
    }
  }

  // ---------------------------------------------------------------------------------------------------
  // The coordinator
  // ---------------------------------------------------------------------------------------------------

  /** However Redis orders its sets. */
  ghost predicate IsLister(list: set<string> -> seq<string>) {
    forall ids :: Lists(list(ids), ids)
  }

  class ExactCoordinator {
    const store: RedisExactStore
    const mem: ExactMemoryIndex
    ghost var listed: seq<string>

    /** The store is consistent, and the index was built from what it holds now, in some order. */
    ghost predicate Valid()
      reads this, store, mem
    {
      && RuleStore.Inv(store.View())
      && Lists(listed, store.ids)
      && mem.m == Indexed(RulesOf(store.View(), listed))
    }

    constructor (list: set<string> -> seq<string>)
      requires IsLister(list)
      ensures Valid() && store.View() == Empty && fresh(store) && fresh(mem)
    {
      store := new RedisExactStore();
      mem := new ExactMemoryIndex();
      listed := [];
      new;
      Reload(list);
    }

    method Reload(list: set<string> -> seq<string>)
      requires IsLister(list) && RuleStore.Inv(store.View())
      modifies this, mem
      ensures Valid()
    {
      var listing := list(store.ids);
      var rules := store.ListAll(listing);
      mem.ReplaceAll(rules);
      listed := listing;
    }

    method Create(list: set<string> -> seq<string>, k: Creation, id: string, now: int) returns (r: Result<ExactRule, Error>)
      requires Valid() && IsLister(list) && id != "" && id !in store.rules
      modifies this, store, mem
      ensures Valid() && (store.View(), r) == RuleStore.Create(old(store.View()), k, id, now)
    {
      hide RuleStore.Create, RuleStore.Inv, Indexed, RulesOf, Lists;
      ghost var before := store.View();
      r := store.CreateRule(k, id, now);
      OpKeepsInv(before, DoCreate(k, id, now));
      RefusedChangesNothing(before, DoCreate(k, id, now));
      if r.Ok? {
        Reload(list);
      }
    }

    method Patch(list: set<string> -> seq<string>, id: string, p: RuleStore.Patch, now: int)
      returns (r: Result<ExactRule, Error>)
      requires Valid() && IsLister(list)
      modifies this, store, mem
      ensures Valid() && (store.View(), r) == Update(old(store.View()), id, p, now)
    {
      hide Update, RuleStore.Inv, Indexed, RulesOf, Lists;
      ghost var before := store.View();
      r := store.UpdateRule(id, p, now);
      OpKeepsInv(before, DoUpdate(id, p, now));
      RefusedChangesNothing(before, DoUpdate(id, p, now));
      if r.Ok? {
        Reload(list);
      }
    }

    method Delete(list: set<string> -> seq<string>, id: string) returns (r: Result<(), Error>)
      requires Valid() && IsLister(list)
      modifies this, store, mem
      ensures Valid() && (store.View(), r) == RuleStore.Delete(old(store.View()), id)
    {
      hide RuleStore.Delete, RuleStore.Inv, Indexed, RulesOf, Lists;
      ghost var before := store.View();
      r := store.DeleteRule(id);
      OpKeepsInv(before, DoDelete(id));
      RefusedChangesNothing(before, DoDelete(id));
      if r.Ok? {
        Reload(list);
      }
    }

    /**
      The users' path: it reads the index only, and answers as a search through Redis by composite key would; with
      NUL-free scopes that is a search by scope and key.
     */
    method MatchExact(scope: Option<string>, query: string) returns (hit: Option<MemoryEntry>)
      requires Valid()
      ensures var k := CompositeKey(ScopeKey(scope), query);
        && (hit.None? <==> forall id :: id in store.rules ==> RuleKey(store.rules[id]) != k)
        && (hit.Some? ==> exists id :: id in store.rules && RuleKey(store.rules[id]) == k
                                       && hit.value == MemoryEntry(id, store.rules[id].dat))
      ensures NulFreeScopes(store.View()) && NUL !in ScopeKey(scope) ==>
        && (hit.None? <==> !Taken(store.View(), None, ScopeKey(scope), query))
        && (forall id :: id in store.rules && SameScopeAndKey(store.rules[id], ScopeKey(scope), query)
              ==> hit == Some(MemoryEntry(id, store.rules[id].dat)))
    {
      LookupIsKeySearch(store.View(), listed, ScopeKey(scope), query);
      if NulFreeScopes(store.View()) && NUL !in ScopeKey(scope) {
        LookupIsSearch(store.View(), listed, ScopeKey(scope), query);
      }
      hit := mem.Lookup(ScopeKey(scope), query);
    }
  }
}
