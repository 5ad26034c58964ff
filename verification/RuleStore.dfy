/**
  The exact rules in Redis (internal/rules/redis_store.go): a record per rule id, a set of ids, and a uniqueness
  index from (scope, key) to id. `Update` and `Delete` are taken as atomic; `Create` is also taken command by
  command, in `RuleCreation`. The index is keyed by the string that the code hashes, the hash being injective.
 */
module RuleStore {
  import opened RedisSets
  import opened Separators
  import opened Trimming
  import opened Wrappers

  datatype ExactRule = ExactRule(
    id: string, scope: Option<string>, key: string, dat: string, createdAt: int, updatedAt: int)

  datatype Creation = Creation(scope: Option<string>, key: string, dat: string)

  datatype Patch = Patch(scope: Option<string>, key: Option<string>, dat: Option<string>) {
    predicate HasAny() {
      scope.Some? || key.Some? || dat.Some?
    }
  }

  datatype Error = EmptyKey | EmptyPatch | NotFound | Conflict

  /** The scope as rules are partitioned by it: no scope and the empty scope are the same. */
  function ScopeKey(scope: Option<string>): string {
    match scope
    case None => ""
    case Some(s) => s
  }

  const NEWLINE := '\n'

  function IndexString(scope: string, key: string): string {
    Join(scope, NEWLINE, key)
  }

  function RuleIndex(r: ExactRule): string {
    IndexString(ScopeKey(r.scope), r.key)
  }

  // ---------------------------------------------------------------------------------------------------
  // The operations, as functions of what is stored
  // ---------------------------------------------------------------------------------------------------

  datatype Store = Store(rules: map<string, ExactRule>, idx: map<string, string>, ids: set<string>)

  const Empty := Store(map[], map[], {})

  function Created(id: string, k: Creation, now: int): ExactRule {
    ExactRule(id, k.scope, k.key, k.dat, now, now)
  }

  function Create(st: Store, k: Creation, id: string, now: int): (Store, Result<ExactRule, Error>) {
    var x := IndexString(ScopeKey(k.scope), k.key);
    var rule := Created(id, k, now);
    if k.key == "" then (st, Err(EmptyKey))
    else if x in st.idx then (st, Err(Conflict))
    else (Store(st.rules[id := rule], st.idx[x := id], st.ids + {id}), Ok(rule))
  }

  function MergePatch(r: ExactRule, p: Patch): (merged: ExactRule)
    ensures merged.id == r.id && merged.createdAt == r.createdAt
  {
    var scope :=
      match p.scope
      case None => r.scope
      case Some(s) => if TrimSpace(s) == "" then None else Some(TrimSpace(s));
    var key :=
      match p.key
      case None => r.key
      case Some(k) => TrimSpace(k);
    var dat :=
      match p.dat
      case None => r.dat
      case Some(d) => d;
    r.(scope := scope, key := key, dat := dat)
  }

  /** The id that holds an index string; Go reads a missing entry as the empty string. */
  function Holder(st: Store, x: string): string {
    if x in st.idx then st.idx[x] else ""
  }

  function Update(st: Store, id: string, p: Patch, now: int): (Store, Result<ExactRule, Error>) {
    if !p.HasAny() then (st, Err(EmptyPatch))
    else if id !in st.rules then (st, Err(NotFound))
    else
      var old' := st.rules[id];
      var merged := MergePatch(old', p).(updatedAt := now);
      var x, y := RuleIndex(old'), RuleIndex(merged);
      if TrimSpace(merged.key) == "" then (st, Err(EmptyKey))
      else if x != y && Holder(st, y) != "" && Holder(st, y) != id then (st, Err(Conflict))
      else (st.(rules := st.rules[id := merged], idx := if x != y then (st.idx - {x})[y := id] else st.idx), Ok(merged))
  }

  function Delete(st: Store, id: string): (Store, Result<(), Error>) {
    if id !in st.rules then (st, Err(NotFound))
    else (Store(st.rules - {id}, st.idx - {RuleIndex(st.rules[id])}, st.ids - {id}), Ok(()))
  }

  // ---------------------------------------------------------------------------------------------------
  // The store object
  // ---------------------------------------------------------------------------------------------------

  class RedisExactStore {
    var rules: map<string, ExactRule>
    var idx: map<string, string>
    var ids: set<string>

    function View(): Store
      reads this
    {
      Store(rules, idx, ids)
    }

    constructor ()
      ensures View() == Empty
    {
      rules, idx, ids := map[], map[], {};
    }

    method CreateRule(k: Creation, id: string, now: int) returns (r: Result<ExactRule, Error>)
      modifies this
      ensures (View(), r) == Create(old(View()), k, id, now)
    {
      if k.key == "" {
        return Err(EmptyKey);
      }
      var x := IndexString(ScopeKey(k.scope), k.key);
      if x in idx {
        return Err(Conflict);
      }
      idx := idx[x := id];
      var rule := Created(id, k, now);
      rules := rules[id := rule];
      ids := ids + {id};
      r := Ok(rule);
    }

    method UpdateRule(id: string, p: Patch, now: int) returns (r: Result<ExactRule, Error>)
      modifies this
      ensures (View(), r) == Update(old(View()), id, p, now)
    {
      if !p.HasAny() {
        return Err(EmptyPatch);
      }
      if id !in rules {
        return Err(NotFound);
      }
      var before := rules[id];
      var merged := MergePatch(before, p);
      if TrimSpace(merged.key) == "" {
        return Err(EmptyKey);
      }
      var oldIdx, newIdx := RuleIndex(before), RuleIndex(merged);
      merged := merged.(updatedAt := now);
      if newIdx != oldIdx {
        var other := if newIdx in idx then idx[newIdx] else "";
        if other != "" && other != id {
          return Err(Conflict);
        }
        idx := idx - {oldIdx};
        idx := idx[newIdx := id];
      }
      rules := rules[id := merged];
      r := Ok(merged);
    }

    method DeleteRule(id: string) returns (r: Result<(), Error>)
      modifies this
      ensures (View(), r) == Delete(old(View()), id)
    {
      if id !in rules {
        return Err(NotFound);
      }
      var x := RuleIndex(rules[id]);
      rules := rules - {id};
      ids := ids - {id};
      idx := idx - {x};
      r := Ok(());
    }

    /** All rules, in the order in which the ids are listed; an id without a record is skipped. */
    method ListAll(listing: seq<string>) returns (out: seq<ExactRule>)
      requires Lists(listing, ids)
      ensures out == RulesOf(View(), listing)
    {
      out := [];
      for i := 0 to |listing|
        invariant out == RulesOf(View(), listing[..i])
      {
        assert listing[..i + 1][..i] == listing[..i];
        var id := listing[i];
        if id in rules {
          out := out + [rules[id]];
        }
      }
      assert listing[..|listing|] == listing;
    }
  }

  function RulesOf(st: Store, listing: seq<string>): seq<ExactRule> {
    if listing == [] then []
    else
      var id := listing[|listing| - 1];
      RulesOf(st, listing[..|listing| - 1]) + (if id in st.rules then [st.rules[id]] else [])
  }

  // ---------------------------------------------------------------------------------------------------
  // The invariant
  // ---------------------------------------------------------------------------------------------------

  /** Ids, records and index entries correspond one to one. */
  ghost predicate Inv(st: Store) {
    && st.ids == st.rules.Keys
    && (forall id :: id in st.rules ==>
          id != "" && st.rules[id].id == id
          && RuleIndex(st.rules[id]) in st.idx && st.idx[RuleIndex(st.rules[id])] == id)
    && (forall x :: x in st.idx ==> st.idx[x] in st.rules && RuleIndex(st.rules[st.idx[x]]) == x)
  }

  datatype Op =
    | DoCreate(k: Creation, id: string, now: int)
    | DoUpdate(id: string, p: Patch, now: int)
    | DoDelete(id: string)

  function Apply(st: Store, op: Op): Store {
    match op
    case DoCreate(k, id, now) => Create(st, k, id, now).0
    case DoUpdate(id, p, now) => Update(st, id, p, now).0
    case DoDelete(id) => Delete(st, id).0
  }

  /** A new rule's id is a new one. */
  predicate FreshIds(st: Store, ops: seq<Op>)
    decreases |ops|
  {
    ops == [] || ((ops[0].DoCreate? ==> ops[0].id != "" && ops[0].id !in st.rules) && FreshIds(Apply(st, ops[0]), ops[1..]))
  }

  function ApplyAll(st: Store, ops: seq<Op>): Store
    decreases |ops|
  {
    if ops == [] then st else ApplyAll(Apply(st, ops[0]), ops[1..])
  }

  lemma CreateKeepsInv(st: Store, k: Creation, id: string, now: int)
    requires Inv(st) && id != "" && id !in st.rules
    ensures Inv(Create(st, k, id, now).0)
  {
  }

  lemma UpdateKeepsInv(st: Store, id: string, p: Patch, now: int)
    requires Inv(st)
    ensures Inv(Update(st, id, p, now).0)
  {
    hide RuleIndex, MergePatch, TrimSpace, ScopeKey;
  }

  lemma DeleteKeepsInv(st: Store, id: string)
    requires Inv(st)
    ensures Inv(Delete(st, id).0)
  {
    hide RuleIndex;
  }

  lemma OpKeepsInv(st: Store, op: Op)
    requires Inv(st) && (op.DoCreate? ==> op.id != "" && op.id !in st.rules)
    ensures Inv(Apply(st, op))
  {
    hide Inv, Create, Update, Delete;
    match op
    case DoCreate(k, id, now) => CreateKeepsInv(st, k, id, now);
    case DoUpdate(id, p, now) => UpdateKeepsInv(st, id, p, now);
    case DoDelete(id) => DeleteKeepsInv(st, id);
  }

  predicate Refused(st: Store, op: Op) {
    match op
    case DoCreate(k, id, now) => Create(st, k, id, now).1.Err?
    case DoUpdate(id, p, now) => Update(st, id, p, now).1.Err?
    case DoDelete(id) => Delete(st, id).1.Err?
  }

  /** A refused operation leaves the store alone. */
  lemma RefusedChangesNothing(st: Store, op: Op)
    ensures Refused(st, op) ==> Apply(st, op) == st
  {
    hide RuleIndex, MergePatch, TrimSpace, ScopeKey;
  }

  /** Two live rules have different index strings, so different scopes or keys. */
  predicate Unique(st: Store) {
    forall a, b :: a in st.rules && b in st.rules && RuleIndex(st.rules[a]) == RuleIndex(st.rules[b]) ==> a == b
  }

  /**
    After any sequence of creates, updates and deletes, refused ones included, ids, records and index are in
    bijection, and no two live rules share scope and key.
   */
  lemma {:induction false} StoreStaysConsistent(st: Store, ops: seq<Op>)
    requires Inv(st) && FreshIds(st, ops)
    ensures Inv(ApplyAll(st, ops)) && Unique(ApplyAll(st, ops))
    decreases |ops|
  {
    if ops != [] {
      OpKeepsInv(st, ops[0]);
      StoreStaysConsistent(Apply(st, ops[0]), ops[1..]);
    }
  }

  /** An operation touches one rule: all others, and on an update its id and creation time, stay as they are. */
  lemma OpTouchesOneRule(st: Store, op: Op, other: string)
    requires Inv(st) && other != op.id
    ensures (other in Apply(st, op).rules <==> other in st.rules)
            && (other in st.rules ==> Apply(st, op).rules[other] == st.rules[other])
    ensures op.DoUpdate? && op.id in st.rules ==>
      op.id in Apply(st, op).rules && Apply(st, op).rules[op.id].createdAt == st.rules[op.id].createdAt
  {
  }

  /** Scopes are told apart as they are written, except that no scope is the empty scope. */
  lemma ScopeKeysAgreeIff(a: Option<string>, b: Option<string>)
    ensures ScopeKey(a) == ScopeKey(b) <==> a == b || (a in {None, Some("")} && b in {None, Some("")})
  {
  }

  /** What a creation that goes through leaves: the rule as given, under its id, created and updated now. */
  lemma CreateLeaves(st: Store, k: Creation, id: string, now: int)
    requires Create(st, k, id, now).1.Ok?
    ensures var (t, r) := Create(st, k, id, now);
      && r.value == ExactRule(id, k.scope, k.key, k.dat, now, now)
      && t.rules == st.rules[id := r.value] && t.ids == st.ids + {id}
  {
  }

  /**
    What an update that goes through leaves, field by field: a text as given; a key and a scope without the white space
    around them, a blank scope becoming none; what is not given as it was; the creation time as it was, the update time
    now.
   */
  lemma UpdateLeaves(st: Store, id: string, p: Patch, now: int)
    requires Inv(st) && Update(st, id, p, now).1.Ok?
    ensures id in st.rules
    ensures var (t, r) := Update(st, id, p, now);
      var before, after := st.rules[id], r.value;
      && t.rules == st.rules[id := after] && t.ids == st.ids
      && after.id == id && after.createdAt == before.createdAt && after.updatedAt == now
      && (p.dat.None? ==> after.dat == before.dat) && (p.dat.Some? ==> after.dat == p.dat.value)
      && (p.key.None? ==> after.key == before.key) && (p.key.Some? ==> after.key == TrimSpace(p.key.value))
      && (p.scope.None? ==> after.scope == before.scope)
      && (p.scope.Some? && All(p.scope.value, IsSpace) ==> after.scope == None)
      && (p.scope.Some? && !All(p.scope.value, IsSpace) ==> after.scope == Some(TrimSpace(p.scope.value)))
  {
    if p.scope.Some? {
      BlankIff(p.scope.value);
    }
  }

  lemma BlankIff(s: string)
    ensures TrimSpace(s) == "" <==> All(s, IsSpace)
  {
    var l, r := TrimCuts(s, IsSpace);
    if TrimSpace(s) != "" {
      assert s[|l|] == TrimSpace(s)[0];
    }
  }

  /** Which error an operation is refused with. */
  lemma RefusedWith(st: Store, k: Creation, id: string, p: Patch, now: int)
    ensures Create(st, k, id, now).1 == Err(EmptyKey) <==> k.key == ""
    ensures Update(st, id, p, now).1 == Err(EmptyPatch) <==> p == Patch(None, None, None)
    ensures Update(st, id, p, now).1 == Err(NotFound) <==> p != Patch(None, None, None) && id !in st.rules
    ensures Update(st, id, p, now).1 == Err(EmptyKey) <==>
      && p != Patch(None, None, None) && id in st.rules
      && All(if p.key.Some? then p.key.value else st.rules[id].key, IsSpace)
    ensures Delete(st, id).1 == Err(NotFound) <==> id !in st.rules
    ensures Delete(st, id).1.Ok? <==> id in st.rules
  {
    if id in st.rules {
      var key := MergePatch(st.rules[id], p).key;
      BlankIff(key);
      if p.key.Some? {
        BlankIff(p.key.value);
        TrimIdempotent(p.key.value, IsSpace);
      }
    }
  }

  /** p, overridden by q field by field. */
  function Over(p: Patch, q: Patch): Patch {
    Patch(if q.scope.Some? then q.scope else p.scope,
          if q.key.Some? then q.key else p.key,
          if q.dat.Some? then q.dat else p.dat)
  }

  /**
    Two updates that go through leave the store that one update with both patches leaves, index entries included -
    also if the second moves the rule back to where it was.
   */
  lemma UpdatesCompose(st: Store, id: string, p: Patch, now: int, q: Patch, later: int)
    requires Inv(st) && Update(st, id, p, now).1.Ok?
    requires Update(Update(st, id, p, now).0, id, q, later).1.Ok?
    ensures Update(st, id, Over(p, q), later) == Update(Update(st, id, p, now).0, id, q, later)
  {
    hide RuleIndex, TrimSpace, ScopeKey;
    var r := st.rules[id];
    var s := Update(st, id, p, now).0;
    var a, b := MergePatch(r, p).(updatedAt := now), MergePatch(r, Over(p, q)).(updatedAt := later);
    assert s.rules[id] == a && MergePatch(a, q).(updatedAt := later) == b;
    var x, y, z := RuleIndex(r), RuleIndex(a), RuleIndex(b);
    var t := Update(s, id, q, later).0;
    assert y != x ==> y !in st.idx;
    assert t.idx == if x != z then (st.idx - {x})[z := id] else st.idx;
    assert t.rules == st.rules[id := b];
  }

  // ---------------------------------------------------------------------------------------------------
  // When an operation is refused
  // ---------------------------------------------------------------------------------------------------

  predicate SameScopeAndKey(r: ExactRule, scope: string, key: string) {
    ScopeKey(r.scope) == scope && r.key == key
  }

  /** Some live rule other than `self` has this scope and key. */
  predicate Taken(st: Store, self: Option<string>, scope: string, key: string) {
    exists id :: id in st.rules && Some(id) != self && SameScopeAndKey(st.rules[id], scope, key)
  }

  /** Neither scope, followed by a newline, begins the other. */
  predicate Apart(s: string, s': string) {
    !(s + [NEWLINE] <= s') && !(s' + [NEWLINE] <= s)
  }

  /** The live rules' scopes are apart from this one, unless equal to it. */
  predicate ScopesApart(st: Store, scope: string) {
    forall id :: id in st.rules && ScopeKey(st.rules[id].scope) != scope ==> Apart(ScopeKey(st.rules[id].scope), scope)
  }

  /** An index string that is held, and by whom. */
  lemma HeldIff(st: Store, scope: string, key: string, self: Option<string>)
    requires Inv(st) && ScopesApart(st, scope)
    ensures var x := IndexString(scope, key); (x in st.idx && Some(st.idx[x]) != self <==> Taken(st, self, scope, key))
  {
    var x := IndexString(scope, key);
    if x in st.idx {
      var r := st.rules[st.idx[x]];
      JoinClash(NEWLINE, ScopeKey(r.scope), r.key, scope, key);
      JoinSameScope(NEWLINE, scope, r.key, key);
      assert SameScopeAndKey(r, scope, key);
    }
    if Taken(st, self, scope, key) {
      var id :| id in st.rules && Some(id) != self && SameScopeAndKey(st.rules[id], scope, key);
      assert RuleIndex(st.rules[id]) == x;
    }
  }

  /** Conflicts are reported exactly when there is one, as long as no newline makes two scopes run into each other. */
  lemma ConflictMeansTaken(st: Store, k: Creation, id: string, now: int)
    requires Inv(st) && k.key != "" && ScopesApart(st, ScopeKey(k.scope))
    ensures Create(st, k, id, now).1 == Err(Conflict) <==> Taken(st, None, ScopeKey(k.scope), k.key)
  {
    HeldIff(st, ScopeKey(k.scope), k.key, None);
  }

  lemma UpdateConflictMeansTaken(st: Store, id: string, p: Patch, now: int)
    requires Inv(st) && id in st.rules && p.HasAny()
    requires var m := MergePatch(st.rules[id], p); TrimSpace(m.key) != "" && ScopesApart(st, ScopeKey(m.scope))
    ensures var m := MergePatch(st.rules[id], p);
      Update(st, id, p, now).1 == Err(Conflict) <==> Taken(st, Some(id), ScopeKey(m.scope), m.key)
  {
    var m := MergePatch(st.rules[id], p);
    HeldIff(st, ScopeKey(m.scope), m.key, Some(id));
  }

  /** The first rule of an otherwise empty store makes the second creation a conflict. */
  predicate FirstBlocksSecond(scope: string, key: string, scope': string, key': string) {
    var st := Create(Empty, Creation(Some(scope), key, ""), "1", 0).0;
    Create(st, Creation(Some(scope'), key', ""), "2", 0).1 == Err(Conflict)
  }

  /**
    The condition is exact: rules of two different scopes can block each other if and only if one scope, followed by
    a newline, begins the other.
   */
  lemma FalseConflictIff(s: string, s': string)
    requires s != s'
    ensures (exists k, k' :: k != "" && k' != "" && FirstBlocksSecond(s, k, s', k')) <==> !Apart(s, s')
  {
    forall k, k' | k != "" && k' != "" && FirstBlocksSecond(s, k, s', k') ensures !Apart(s, s') {
      JoinClash(NEWLINE, s, k, s', k');
    }
    if s + [NEWLINE] <= s' {
      var k := s'[|s| + 1..] + [NEWLINE] + "z";
      assert IndexString(s, k) == IndexString(s', "z");
      assert k != "" && FirstBlocksSecond(s, k, s', "z");
    }
    if s' + [NEWLINE] <= s {
      var k' := s[|s'| + 1..] + [NEWLINE] + "z";
      assert IndexString(s', k') == IndexString(s, "z");
      assert k' != "" && FirstBlocksSecond(s, "z", s', k');
    }
  }

  // ---------------------------------------------------------------------------------------------------
  // Listings
  // ---------------------------------------------------------------------------------------------------

  /** What is listed is exactly what is stored. */
  lemma {:induction false} RulesOfListing(st: Store, listing: seq<string>, r: ExactRule)
    requires Inv(st)
    ensures r in RulesOf(st, listing) <==> r.id in listing && r.id in st.rules && st.rules[r.id] == r
  {
    if listing != [] {
      var n := |listing| - 1;
      RulesOfListing(st, listing[..n], r);
      assert r.id in listing <==> r.id in listing[..n] || r.id == listing[n];
    }
  }
}
