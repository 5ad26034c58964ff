/**
  Semantic coalescing inside one process (internal/coalesce/semantic_local.go): the leaders kept per scope. This
  file is the data structure the mutex protects, with Go's slices written out as a buffer and a length; the calls
  that work on it concurrently are in `SemanticLocalCalls`.
 */
module SemanticLocal {
  import opened Wrappers
  import opened Cosine

  /** A leader: Go tells two leaders apart by their address, which is what `id` stands for. */
  datatype Leader = Leader(id: nat, emb: Vector)

  type Store = map<string, seq<Leader>>

  const DEFAULT_THRESHOLD := 0.95

  // ---------------------------------------------------------------------------------------------------
  // What the two critical sections do, as functions of the store
  // ---------------------------------------------------------------------------------------------------

  function Leaders(v: Store, scope: string): seq<Leader> {
    if scope in v then v[scope] else []
  }

  /** The first leader that reaches the threshold against the vector. */
  ghost function FirstSimilar(m: Measure, leaders: seq<Leader>, emb: Vector): (hit: Option<Leader>)
    requires IsSqrt(m.sqrt)
    ensures hit.None? <==> forall i :: 0 <= i < |leaders| ==> !Similar(m, leaders[i].emb, emb)
    ensures hit.Some? ==> exists i :: 0 <= i < |leaders| && leaders[i] == hit.value && Similar(m, leaders[i].emb, emb)
                                      && forall j :: 0 <= j < i ==> !Similar(m, leaders[j].emb, emb)
  {
    if leaders == [] then None
    else if Similar(m, leaders[0].emb, emb) then Some(leaders[0])
    else
      var hit := FirstSimilar(m, leaders[1..], emb);
      assert hit.Some? ==> exists i :: 0 <= i < |leaders[1..]| && leaders[i + 1] == leaders[1..][i] == hit.value
                                       && Similar(m, leaders[i + 1].emb, emb)
                                       && forall j :: 0 <= j < i ==> !Similar(m, leaders[1..][j].emb, emb);
      hit
  }

  /** The leader a call settles on, `made` being the one it would make itself. */
  ghost function Chosen(m: Measure, v: Store, scope: string, made: Leader): Leader
    requires IsSqrt(m.sqrt)
  {
    match FirstSimilar(m, Leaders(v, scope), made.emb)
    case Some(hit) => hit
    case None => made
  }

  ghost function Settle(m: Measure, v: Store, scope: string, made: Leader): Store
    requires IsSqrt(m.sqrt)
  {
    if FirstSimilar(m, Leaders(v, scope), made.emb).Some? then v else v[scope := Leaders(v, scope) + [made]]
  }

  /** The list with every occurrence of x dropped and the order kept. */
  function Without<T(==, !new)>(xs: seq<T>, x: T): (ys: seq<T>)
    ensures x !in ys
    ensures forall y :: y in ys <==> y in xs && y != x
    ensures |ys| <= |xs|
    ensures x !in xs ==> ys == xs
  {
    if xs == [] then []
    else Without(xs[..|xs| - 1], x) + (if xs[|xs| - 1] == x then [] else [xs[|xs| - 1]])
  }

  /** Removal drops exactly the element at i, and nothing moves past anything else. */
  lemma {:induction false} WithoutDropsOne<T(!new)>(xs: seq<T>, i: nat)
    requires i < |xs|
    requires forall j :: 0 <= j < |xs| && j != i ==> xs[j] != xs[i]
    ensures Without(xs, xs[i]) == xs[..i] + xs[i + 1..]
  {
    var n := |xs| - 1;
    var ys := xs[..n];
    if i == n {
      assert xs[i] !in ys;
      assert xs[..i] + xs[i + 1..] == ys;
    } else {
      assert ys[i] == xs[i];
      WithoutDropsOne(ys, i);
      assert ys[..i] + ys[i + 1..] + [xs[n]] == xs[..i] + xs[i + 1..];
    }
  }

  function Remove(v: Store, scope: string, x: Leader): Store {
    var rest := Without(Leaders(v, scope), x);
    if rest == [] then v - {scope} else v[scope := rest]
  }

  // ---------------------------------------------------------------------------------------------------
  // The structure itself
  // ---------------------------------------------------------------------------------------------------

  /** A Go slice that starts at its buffer's beginning: what lies past `len` is spare capacity. */
  datatype Slice = Slice(buf: array<Leader>, len: nat)

  class LeaderTable {
    const measure: Measure
    var byScope: map<string, Slice>
    var made: nat
    ghost var view: Store

    /** Every scope has a non-empty slice of its own, and `view` is what the slices show. */
    ghost predicate Valid()
      reads this, Buffers()
    {
      && IsSqrt(measure.sqrt)
      && view.Keys == byScope.Keys
      && (forall scope :: scope in byScope ==>
            0 < byScope[scope].len <= byScope[scope].buf.Length
            && view[scope] == byScope[scope].buf[..byScope[scope].len])
      && (forall a, b :: a in byScope && b in byScope && a != b ==> byScope[a].buf != byScope[b].buf)
    }

    ghost function Buffers(): set<array<Leader>>
      reads this`byScope
    {
      set scope | scope in byScope :: byScope[scope].buf
    }

    constructor (sqrt: real -> real, threshold: real)
      requires IsSqrt(sqrt)
      ensures Valid() && view == map[] && made == 0 && measure.sqrt == sqrt
      ensures measure.threshold == if threshold <= 0.0 then 0.95 else threshold
    {
      this.measure := Measure(sqrt, if threshold <= 0.0 then DEFAULT_THRESHOLD else threshold);
      byScope := map[];
      view := map[];
      made := 0;
    }

    /** The loop over the scope's leaders: the first one that reaches the threshold. */
    method Find(scope: string, emb: Vector) returns (hit: Option<Leader>)
      requires Valid()
      ensures hit == FirstSimilar(measure, Leaders(view, scope), emb)
    {
      if scope !in byScope {
        return None;
      }
      ghost var leaders := view[scope];
      var Slice(buf, len) := byScope[scope];
      for i := 0 to len
        invariant forall j :: 0 <= j < i ==> !Similar(measure, leaders[j].emb, emb)
      {
        var x := buf[i];
        assert x == leaders[i];
        var sim, ok := CosineSimilarity(measure.sqrt, x.emb, emb);
        if ok && sim >= measure.threshold {
          FirstIs(measure, leaders, emb, i);
          return Some(x);
        }
      }
      return None;
    }

    /** First critical section: find a similar leader in the scope, or become one. */
    method FindOrCreate(scope: string, emb: Vector) returns (leader: Leader)
      requires Valid()
      modifies this, Buffers()
      ensures Valid() && fresh(Buffers() - old(Buffers()))
      ensures leader == Chosen(measure, old(view), scope, Leader(old(made), emb))
      ensures view == Settle(measure, old(view), scope, Leader(old(made), emb))
      ensures made == old(made) + 1
    {
      var hit := Find(scope, emb);
      leader := Leader(made, emb);
      made := made + 1;
      if hit.Some? {
        leader := hit.value;
      } else {
        Append(scope, leader);
      }
    }

    /** Put a slice under a scope; the other scopes must be intact, and the slice's buffer none of theirs. */
    method Put(scope: string, slice: Slice, ghost shown: seq<Leader>)
      requires IsSqrt(measure.sqrt)
      requires 0 < slice.len <= slice.buf.Length && slice.buf[..slice.len] == shown
      requires view.Keys == byScope.Keys
      requires forall other :: other in byScope && other != scope ==>
        0 < byScope[other].len <= byScope[other].buf.Length
        && view[other] == byScope[other].buf[..byScope[other].len]
        && byScope[other].buf != slice.buf
      requires forall a, b :: a in byScope && b in byScope && a != b ==> byScope[a].buf != byScope[b].buf
      modifies this`byScope, this`view
      ensures Valid() && byScope == old(byScope)[scope := slice] && view == old(view)[scope := shown]
    {
      hide IsSqrt;
      byScope := byScope[scope := slice];
      view := view[scope := shown];
    }

    /** `delete(s.byScope, scope)`; the other scopes must be intact. */
    method Forget(scope: string)
      requires IsSqrt(measure.sqrt)
      requires view.Keys == byScope.Keys
      requires forall other :: other in byScope && other != scope ==>
        0 < byScope[other].len <= byScope[other].buf.Length
        && view[other] == byScope[other].buf[..byScope[other].len]
      requires forall a, b :: a in byScope && b in byScope && a != b ==> byScope[a].buf != byScope[b].buf
      modifies this`byScope, this`view
      ensures Valid() && byScope == old(byScope) - {scope} && view == old(view) - {scope}
    {
      hide IsSqrt;
      byScope := byScope - {scope};
      view := view - {scope};
    }

    /** `s.byScope[scope] = append(leaders, hit)` */
    method Append(scope: string, leader: Leader)
      requires Valid()
      modifies this`byScope, this`view, Buffers()
      ensures Valid() && fresh(Buffers() - old(Buffers()))
      ensures view == old(view)[scope := Leaders(old(view), scope) + [leader]]
    {
      hide IsSqrt;
      if scope in byScope {
        var slice := AppendTo(byScope[scope], leader);
        Put(scope, slice, view[scope] + [leader]);
      } else {
        var buf := new Leader[1](_ => leader);
        Put(scope, Slice(buf, 1), [] + [leader]);
      }
    }

    /** Second critical section: compact the scope's slice in place and forget the scope once it is empty. */
    method RemoveLeader(scope: string, x: Leader)
      requires Valid()
      modifies this`byScope, this`view, Buffers()
      ensures Valid() && Buffers() <= old(Buffers())
      ensures view == Remove(old(view), scope, x)
    {
      hide Without, FirstSimilar, IsSqrt;
      if scope !in byScope {
        WithoutNothing(Leaders(view, scope), x);
        return;
      }
      var Slice(buf, len) := byScope[scope];
      var kept := Compact(buf, len, x);
      if kept == 0 {
        Forget(scope);
      } else {
        Put(scope, Slice(buf, kept), Without(view[scope], x));
      }
    }
  }

  /** Go's append: into the spare capacity if there is any, else into a larger copy. */
  method AppendTo(s: Slice, x: Leader) returns (t: Slice)
    requires 0 < s.len <= s.buf.Length
    modifies s.buf
    ensures t.len == s.len + 1 <= t.buf.Length
    ensures t.buf[..t.len] == old(s.buf[..s.len]) + [x]
    ensures t.buf == s.buf || fresh(t.buf)
  {
    var Slice(buf, len) := s;
    if len < buf.Length {
      buf[len] := x;
      t := Slice(buf, len + 1);
    } else {
      var copied := new Leader[2 * len](k requires 0 <= k && buf.Length == len reads buf =>
        if k < len then buf[k] else x);
      t := Slice(copied, len + 1);
    }
  }

  /** `out := arr[:0]`, then append what is to stay: reader and writer share the buffer, the writer never ahead. */
  method Compact(buf: array<Leader>, len: nat, x: Leader) returns (kept: nat)
    requires len <= buf.Length
    modifies buf
    ensures kept <= len
    ensures buf[..kept] == Without(old(buf[..len]), x)
  {
    hide Without;
    ghost var before := buf[..len];
    kept := 0;
    WithoutNothing(before, x);
    for i := 0 to len
      invariant 0 <= kept <= i
      invariant buf[..kept] == Without(before[..i], x)
      invariant forall k :: i <= k < len ==> buf[k] == before[k]
    {
      WithoutNext(before, i, x);
      var y := buf[i];
      if y != x {
        buf[kept] := y;
        kept := kept + 1;
      }
    }
    assert before[..len] == before;
  }

  lemma WithoutNothing<T(!new)>(xs: seq<T>, x: T)
    ensures Without(xs[..0], x) == []
  {
  }

  lemma WithoutNext<T(!new)>(xs: seq<T>, i: nat, x: T)
    requires i < |xs|
    ensures Without(xs[..i + 1], x) == Without(xs[..i], x) + (if xs[i] == x then [] else [xs[i]])
  {
    assert xs[..i + 1][..i] == xs[..i];
  }

  lemma {:induction false} FirstIs(m: Measure, leaders: seq<Leader>, emb: Vector, i: nat)
    requires IsSqrt(m.sqrt) && i < |leaders| && Similar(m, leaders[i].emb, emb)
    requires forall j :: 0 <= j < i ==> !Similar(m, leaders[j].emb, emb)
    ensures FirstSimilar(m, leaders, emb) == Some(leaders[i])
  {
    if i > 0 {
      FirstIs(m, leaders[1..], emb, i - 1);
    }
  }
}
