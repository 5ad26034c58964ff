/**
  The two semantic mergers partition by `ScopePrefixFromMergeKey` of the coalescing key
  (internal/coalesce/semantic_local.go, internal/coalesce/semantic_redis.go): what sharing an answer then says of the
  scopes of the requests.
 */
module SemanticScopes {
  import opened Cosine
  import opened MergeKey
  import opened Wrappers
  import Local = SemanticLocalCalls
  import Remote = SemanticRedis

  /** The partition of a request. */
  function Partition(lower: string -> string, r: Request): string {
    ScopePrefix(Key(lower, r.scope, r.query))
  }

  /** Requests that may be answered together: their trimmed scopes agree up to the first NUL. */
  predicate SamePartition(r: Request, r': Request) {
    UpToNul(ScopeNorm(r.scope)) == UpToNul(ScopeNorm(r'.scope))
  }

  lemma PartitionsAgree(lower: string -> string, r: Request, r': Request)
    ensures Partition(lower, r) == Partition(lower, r') <==> SamePartition(r, r')
    ensures NUL !in ScopeNorm(r.scope) && NUL !in ScopeNorm(r'.scope) ==>
      (SamePartition(r, r') <==> ScopeNorm(r.scope) == ScopeNorm(r'.scope))
  {
    PrefixesAgreeIff(lower, r.scope, r.query, r'.scope, r'.query);
    UpToNulOfNulFree(ScopeNorm(r.scope));
    UpToNulOfNulFree(ScopeNorm(r'.scope));
  }

  /** Two different scopes of one partition: what follows a NUL does not count. */
  lemma NulScopesShareMerger(lower: string -> string, q: string, q': string)
    ensures ScopeNorm(Some("a\0x")) != ScopeNorm(Some("a\0y"))
    ensures SamePartition(Request(Some("a\0x"), q), Request(Some("a\0y"), q'))
  {
    Untouched("a\0x");
    Untouched("a\0y");
    SameIndex("a\0x", NUL, 1);
    SameIndex("a\0y", NUL, 1);
  }

  /** Every call of the run is one of `SemanticLocal.Merge` for its request. */
  ghost predicate RoutedLocal(lower: string -> string, requests: map<Local.CallId, Request>, s: Local.State) {
    forall c :: c in s.calls ==> c in requests && s.calls[c].scope == Partition(lower, requests[c])
  }

  /**
    In-process merging, request to answer: whoever shares an answer has a scope that agrees up to the first NUL - the
    same scope, if there is no NUL - and, for a threshold of at most 1, vectors at cosine at least 2t^2 - 1.
   */
  lemma LocalSharersAgree(m: Measure, steps: seq<Local.Step>, lower: string -> string,
                          requests: map<Local.CallId, Request>, c: Local.CallId, d: Local.CallId)
    requires IsSqrt(m.sqrt) && m.threshold > 0.0 && Local.Legal(m, Local.Init, steps) && c != d
    requires var s := Local.After(m, Local.Init, steps);
      && RoutedLocal(lower, requests, s)
      && c in s.calls && s.calls[c].phase.Returned? && d in s.calls && s.calls[d].phase.Returned?
      && s.calls[c].phase.flyer == s.calls[d].phase.flyer
    ensures SamePartition(requests[c], requests[d])
    ensures NUL !in ScopeNorm(requests[c].scope) && NUL !in ScopeNorm(requests[d].scope) ==>
      ScopeNorm(requests[c].scope) == ScopeNorm(requests[d].scope)
    ensures m.threshold <= 1.0 ==>
      var s := Local.After(m, Local.Init, steps);
      Comparable(s.calls[c].emb, s.calls[d].emb) && Cos(m.sqrt, s.calls[c].emb, s.calls[d].emb) >= SharedBound(m)
  {
    hide Local.Legal, Local.After, SamePartition, Partition;
    Local.SharersAreSimilar(m, steps, c, d);
    PartitionsAgree(lower, requests[c], requests[d]);
  }

  /** The same for the Redis merger, the name of the active set being an injective hash of the partition. */
  ghost predicate RoutedRedis(lower: string -> string, requests: map<Remote.CallId, Request>, s: Remote.State) {
    forall c :: c in s.calls ==> c in requests && s.calls[c].scope == Partition(lower, requests[c])
  }

  lemma RedisSharersAgree(cfg: Remote.Config, steps: seq<Remote.Step>, lower: string -> string,
                          requests: map<Remote.CallId, Request>, c: Remote.CallId, d: Remote.CallId)
    requires cfg.Valid() && Remote.Legal(cfg, Remote.Init, steps) && c != d
    requires var s := Remote.After(cfg, Remote.Init, steps);
      && RoutedRedis(lower, requests, s)
      && Remote.AnsweredBy(s, c).Some? && Remote.AnsweredBy(s, c) == Remote.AnsweredBy(s, d)
    ensures c in requests && d in requests && SamePartition(requests[c], requests[d])
    ensures NUL !in ScopeNorm(requests[c].scope) && NUL !in ScopeNorm(requests[d].scope) ==>
      ScopeNorm(requests[c].scope) == ScopeNorm(requests[d].scope)
    ensures cfg.measure.threshold <= 1.0 ==>
      var s := Remote.After(cfg, Remote.Init, steps);
      Comparable(s.calls[c].emb, s.calls[d].emb)
      && Cos(cfg.measure.sqrt, s.calls[c].emb, s.calls[d].emb) >= SharedBound(cfg.measure)
  {
    hide Remote.Legal, Remote.After, SamePartition, Partition;
    Remote.SharersAreSimilar(cfg, steps, c, d);
    PartitionsAgree(lower, requests[c], requests[d]);
  }
}
