/**
  The coalescing key (internal/coalesce/rag.go, internal/coalesce/mergekey.go) and what it means for the calls of
  `Redis.Do` (internal/coalesce/redis.go). `strings.ToLower` is a parameter, and so is the hash, as an injection.
 */
module MergeKey {
  import opened Downstream
  import opened Separators
  import opened Trimming
  import opened Wrappers
  import RedisCoalesce

  const NUL := '\0'

  function ScopeNorm(scope: Option<string>): string {
    match scope
    case Some(s) => TrimSpace(s)
    case None => ""
  }

  function QueryNorm(lower: string -> string, query: string): string {
    TrimSpace(lower(query))
  }

  function Key(lower: string -> string, scope: Option<string>, query: string): string {
    Join(ScopeNorm(scope), NUL, QueryNorm(lower, query))
  }

  /** strings.IndexByte */
  function IndexOf(s: string, c: char): (i: int)
    ensures -1 <= i < |s|
    ensures i >= 0 ==> s[i] == c && c !in s[..i]
    ensures i < 0 ==> c !in s
  {
    if s == [] then -1
    else if s[0] == c then 0
    else
      var i := IndexOf(s[1..], c);
      if i < 0 then -1 else
      assert s[..i + 1] == [s[0]] + s[1..][..i];
      i + 1
  }

  function ScopePrefix(key: string): string {
    var i := IndexOf(key, NUL);
    if i < 0 then "" else key[..i]
  }

  /** The scope can be read back from the key exactly when, trimmed, it has no NUL. */
  lemma PrefixInvertsKey(lower: string -> string, scope: Option<string>, query: string)
    ensures ScopePrefix(Key(lower, scope, query)) == ScopeNorm(scope) <==> NUL !in ScopeNorm(scope)
  {
    var s, k := ScopeNorm(scope), Key(lower, scope, query);
    FirstSeparator(s, NUL, QueryNorm(lower, query));
    assert k[..|s|] == s;
  }

  /** The first separator is the one after the scope, or one inside it. */
  lemma {:induction false} FirstSeparator(s: string, c: char, rest: string)
    ensures 0 <= IndexOf(Join(s, c, rest), c) <= |s|
    ensures IndexOf(Join(s, c, rest), c) == |s| <==> c !in s
  {
    if s != [] && s[0] != c {
      assert Join(s, c, rest)[1..] == Join(s[1..], c, rest);
      FirstSeparator(s[1..], c, rest);
    }
  }

  /** What of a scope comes before its first NUL: all of it, if there is none. */
  function UpToNul(s: string): string {
    var i := IndexOf(s, NUL);
    if i < 0 then s else s[..i]
  }

  lemma PrefixIsUpToNul(lower: string -> string, scope: Option<string>, query: string)
    ensures ScopePrefix(Key(lower, scope, query)) == UpToNul(ScopeNorm(scope))
  {
    var s, k := ScopeNorm(scope), Key(lower, scope, query);
    FirstSeparator(s, NUL, QueryNorm(lower, query));
    var i := IndexOf(k, NUL);
    assert k[..i] == s[..i];
    if i < |s| {
      assert s[i] == NUL && NUL !in s[..i];
      SameIndex(s, NUL, i);
    }
  }

  /** There is one first occurrence. */
  lemma {:induction false} SameIndex(s: string, c: char, i: nat)
    requires i < |s| && s[i] == c && c !in s[..i]
    ensures IndexOf(s, c) == i
  {
    if i > 0 {
      assert s[0] in s[..i] && s[..i][1..] == s[1..][..i - 1];
      SameIndex(s[1..], c, i - 1);
    }
  }

  /** Exactly when two requests fall into one partition of semantic merging. */
  lemma PrefixesAgreeIff(lower: string -> string, s: Option<string>, q: string, s': Option<string>, q': string)
    ensures ScopePrefix(Key(lower, s, q)) == ScopePrefix(Key(lower, s', q'))
            <==> UpToNul(ScopeNorm(s)) == UpToNul(ScopeNorm(s'))
  {
    PrefixIsUpToNul(lower, s, q);
    PrefixIsUpToNul(lower, s', q');
  }

  lemma UpToNulOfNulFree(s: string)
    ensures UpToNul(s) == s <==> NUL !in s
  {
  }

  // Exactly when two scopes can share a whole key, for a `lower` that works character by character.

  function Map(f: char -> char, s: string): (t: string)
    ensures |t| == |s| && forall i :: 0 <= i < |s| ==> t[i] == f(s[i])
  {
    if s == [] then [] else [f(s[0])] + Map(f, s[1..])
  }

  /** Lower-casing maps each character on its own, a lower-case one to itself, and NUL to NUL. */
  ghost predicate LowersByChar(lower: string -> string, f: char -> char) {
    && (forall s :: lower(s) == Map(f, s))
    && (forall c :: f(f(c)) == f(c)) && f(NUL) == NUL
  }

  /** A string the normalisation of queries leaves as it is. */
  predicate Normal(lower: string -> string, q: string) {
    lower(q) == q && (q != "" ==> !IsSpace(q[0]) && !IsSpace(q[|q| - 1]))
  }

  /** The normalised queries are the strings that normalisation leaves as they are. */
  lemma NormalIff(lower: string -> string, f: char -> char, q: string)
    requires LowersByChar(lower, f)
    ensures Normal(lower, q) ==> QueryNorm(lower, q) == q
    ensures Normal(lower, QueryNorm(lower, q))
  {
    if Normal(lower, q) && q != "" {
      Untouched(q);
    }
    var low := lower(q);
    var l, r := TrimCuts(low, IsSpace);
    var t := TrimSpace(low);
    assert low == l + t + r;
    forall i | 0 <= i < |t| ensures f(t[i]) == t[i] {
      assert t[i] == low[|l| + i] == f(q[|l| + i]);
    }
    assert Map(f, t) == t;
  }

  /** `longer` is `shorter`, a NUL, and something that may begin a normalised query. */
  predicate Extends(lower: string -> string, shorter: string, longer: string) {
    && shorter + [NUL] <= longer
    && var r := longer[|shorter| + 1..];
       lower(r) == r && (r != "" ==> !IsSpace(r[0]))
  }

  lemma KeysClashIff(lower: string -> string, f: char -> char, s: Option<string>, s': Option<string>)
    requires LowersByChar(lower, f) && ScopeNorm(s) != ScopeNorm(s')
    ensures (exists q, q' :: Key(lower, s, q) == Key(lower, s', q'))
            <==> Extends(lower, ScopeNorm(s), ScopeNorm(s')) || Extends(lower, ScopeNorm(s'), ScopeNorm(s))
  {
    var a, b := ScopeNorm(s), ScopeNorm(s');
    forall q, q' | Key(lower, s, q) == Key(lower, s', q') ensures Extends(lower, a, b) || Extends(lower, b, a) {
      JoinClash(NUL, a, QueryNorm(lower, q), b, QueryNorm(lower, q'));
      if a + [NUL] <= b {
        ClashExtends(lower, f, a, q, b, q');
      } else {
        ClashExtends(lower, f, b, q', a, q);
      }
    }
    if Extends(lower, a, b) {
      ExtendsClash(lower, f, s, s');
    } else if Extends(lower, b, a) {
      ExtendsClash(lower, f, s', s);
    }
  }

  lemma ClashExtends(lower: string -> string, f: char -> char, a: string, q: string, b: string, q': string)
    requires LowersByChar(lower, f) && a + [NUL] <= b
    requires Join(a, NUL, QueryNorm(lower, q)) == Join(b, NUL, QueryNorm(lower, q'))
    ensures Extends(lower, a, b)
  {
    var r, x := b[|a| + 1..], QueryNorm(lower, q);
    assert b == a + [NUL] + r;
    assert x == r + [NUL] + QueryNorm(lower, q') by {
      assert Join(b, NUL, QueryNorm(lower, q')) == Join(a, NUL, r + [NUL] + QueryNorm(lower, q'));
      JoinSameScope(NUL, a, x, r + [NUL] + QueryNorm(lower, q'));
    }
    NormalIff(lower, f, q);
    forall i | 0 <= i < |r| ensures f(r[i]) == r[i] {
      assert x[i] == r[i] == Map(f, x)[i];
    }
    assert Map(f, r) == r;
    assert r != "" ==> r[0] == x[0];
  }

  lemma NormalBeforeNul(lower: string -> string, f: char -> char, r: string)
    requires LowersByChar(lower, f) && lower(r) == r && (r != "" ==> !IsSpace(r[0]))
    ensures QueryNorm(lower, r + [NUL]) == r + [NUL] && QueryNorm(lower, "") == ""
  {
    hide QueryNorm;
    var q := r + [NUL];
    forall i | 0 <= i < |q| ensures f(q[i]) == q[i] {
      assert i < |r| ==> Map(f, r)[i] == r[i];
    }
    assert Map(f, q) == q && Map(f, "") == "";
    NormalIff(lower, f, q);
    NormalIff(lower, f, "");
  }

  lemma ExtendsClash(lower: string -> string, f: char -> char, s: Option<string>, s': Option<string>)
    requires LowersByChar(lower, f) && Extends(lower, ScopeNorm(s), ScopeNorm(s'))
    ensures exists q, q' :: Key(lower, s, q) == Key(lower, s', q')
    ensures exists q, q' :: Key(lower, s', q') == Key(lower, s, q)
  {
    hide QueryNorm, LowersByChar, ScopeNorm;
    var a, b := ScopeNorm(s), ScopeNorm(s');
    var r := b[|a| + 1..];
    NormalBeforeNul(lower, f, r);
    assert b == a + [NUL] + r;
    assert Join(a, NUL, r + [NUL]) == Join(b, NUL, "");
    assert Key(lower, s, r + [NUL]) == Key(lower, s', "");
  }

  /** NUL-free scopes apart, keys apart; and then the normalised queries agree as well. */
  lemma EqualKeys(lower: string -> string, s: Option<string>, q: string, s': Option<string>, q': string)
    requires NUL !in ScopeNorm(s) && NUL !in ScopeNorm(s')
    ensures Key(lower, s, q) == Key(lower, s', q')
            <==> ScopeNorm(s) == ScopeNorm(s') && QueryNorm(lower, q) == QueryNorm(lower, q')
  {
    if Key(lower, s, q) == Key(lower, s', q') {
      JoinInjective(NUL, ScopeNorm(s), QueryNorm(lower, q), ScopeNorm(s'), QueryNorm(lower, q'));
    }
  }

  /** With NULs in scopes two different scopes do share a key. */
  lemma NulScopesShareKey(lower: string -> string)
    requires lower("c") == "c" && lower("b\0c") == "b\0c"
    ensures Key(lower, Some("a"), "b\0c") == Key(lower, Some("a\0b"), "c")
    ensures ScopeNorm(Some("a")) != ScopeNorm(Some("a\0b"))
  {
    Untouched("a");
    Untouched("a\0b");
    Untouched("c");
    Untouched("b\0c");
    assert "a" + "\0" + "b\0c" == "a\0b" + "\0" + "c";
  }

  lemma Untouched(s: string)
    requires s != "" && !IsSpace(s[0]) && !IsSpace(s[|s| - 1])
    ensures TrimSpace(s) == s
  {
    assert s == [] + s + [];
    CutIsTrim(s, IsSpace, [], s, []);
  }

  /** What counts as white space: the code points that unicode.IsSpace accepts. */
  lemma SpacesAre(c: char)
    ensures IsSpace(c) <==> c as int in {
      0x09, 0x0A, 0x0B, 0x0C, 0x0D, 0x20, 0x85, 0xA0, 0x1680, 0x2000, 0x2001, 0x2002, 0x2003, 0x2004, 0x2005, 0x2006,
      0x2007, 0x2008, 0x2009, 0x200A, 0x2028, 0x2029, 0x202F, 0x205F, 0x3000}
  {
  }

  lemma PaddingIsTrimmed(l: string, s: string, r: string)
    requires All(l, IsSpace) && All(r, IsSpace)
    ensures TrimSpace(l + s + r) == TrimSpace(s)
  {
    var a, b := TrimCuts(s, IsSpace);
    var t := TrimSpace(s);
    assert l + s + r == (l + a) + t + (b + r);
    CutIsTrim(l + s + r, IsSpace, l + a, t, b + r);
  }

  /**
    White space around a scope or a query, and the case of a query's letters, do not change the key; no scope and a
    blank scope share theirs. The lower-casing is to leave white space alone.
   */
  lemma KeyIgnores(lower: string -> string, f: char -> char, l: string, r: string, s: string, scope: Option<string>,
                   q: string, q': string)
    requires LowersByChar(lower, f) && (forall c :: IsSpace(c) ==> f(c) == c)
    requires All(l, IsSpace) && All(r, IsSpace)
    ensures Key(lower, Some(l + s + r), q) == Key(lower, Some(s), q)
    ensures Key(lower, scope, l + q + r) == Key(lower, scope, q)
    ensures Key(lower, Some(l), q) == Key(lower, None, q)
    ensures lower(q) == lower(q') ==> Key(lower, scope, q) == Key(lower, scope, q')
  {
    LowerPadded(lower, f, l, q, r);
    hide LowersByChar, TrimSpace, IsSpace, Join;
    PaddingIsTrimmed(l, s, r);
    PaddingIsTrimmed(l, [], []);
    assert l + [] + [] == l;
    NothingToTrim();
    PaddingIsTrimmed(l, lower(q), r);
  }

  lemma NothingToTrim()
    ensures TrimSpace("") == ""
  {
  }

  lemma LowerPadded(lower: string -> string, f: char -> char, l: string, q: string, r: string)
    requires LowersByChar(lower, f) && (forall c :: IsSpace(c) ==> f(c) == c)
    requires All(l, IsSpace) && All(r, IsSpace)
    ensures lower(l + q + r) == l + lower(q) + r
  {
    hide IsSpace;
    assert Map(f, l) == l && Map(f, r) == r;
    assert Map(f, l + q + r) == Map(f, l) + Map(f, q) + Map(f, r);
  }

  // ---------------------------------------------------------------------------------------------------
  // `Redis.Do`
  // ---------------------------------------------------------------------------------------------------

  datatype Request = Request(scope: Option<string>, query: string)

  ghost predicate Injective(hash: string -> string) {
    forall x, y :: hash(x) == hash(y) ==> x == y
  }

  /** Every call of the run went through `Do`: its slot is the hash of its request's key. */
  ghost predicate Routed(lower: string -> string, hash: string -> string,
                         requests: map<RedisCoalesce.CallId, Request>, s: RedisCoalesce.State)
  {
    forall c :: c in s.calls ==>
      c in requests && s.calls[c].slot == hash(Key(lower, requests[c].scope, requests[c].query))
  }

  /**
    Every answer `Do` hands out in any run is the caller's own outcome, or the stored form of the outcome of a call
    with the same key; so if the scopes have no NUL, of a call with the same scope and the same normalised query.
   */
  lemma DoAnswersItsOwnKey(cfg: RedisCoalesce.Config, steps: seq<RedisCoalesce.Step>, lower: string -> string,
                           hash: string -> string, requests: map<RedisCoalesce.CallId, Request>, c: RedisCoalesce.CallId)
    requires Injective(hash) && RedisCoalesce.Legal(cfg, RedisCoalesce.Init, steps)
    requires var s := RedisCoalesce.After(cfg, RedisCoalesce.Init, steps);
      Routed(lower, hash, requests, s) && c in s.calls && s.calls[c].phase.Returned?
    ensures var s := RedisCoalesce.After(cfg, RedisCoalesce.Init, steps);
      var answer := s.calls[c].phase.answer;
      && (answer.Own? ==> c in s.outcomes && answer.out == s.outcomes[c])
      && (answer.Shared? ==>
            var w := answer.writer;
            && w in s.outcomes && w in requests
            && answer.out == RedisCoalesce.Decode(RedisCoalesce.Encode(s.outcomes[w]))
            && (s.outcomes[w].Answered? ==> answer.out == s.outcomes[w])
            && Key(lower, requests[w].scope, requests[w].query) == Key(lower, requests[c].scope, requests[c].query)
            && (NUL !in ScopeNorm(requests[w].scope) && NUL !in ScopeNorm(requests[c].scope) ==>
                  ScopeNorm(requests[w].scope) == ScopeNorm(requests[c].scope)
                  && QueryNorm(lower, requests[w].query) == QueryNorm(lower, requests[c].query)))
  {
    RedisCoalesce.AnswerProvenance(cfg, steps, c);
    var s := RedisCoalesce.After(cfg, RedisCoalesce.Init, steps);
    if s.calls[c].phase.answer.Shared? {
      var w := s.calls[c].phase.answer.writer;
      RedisCoalesce.StoreRoundTrip(s.outcomes[w]);
      if NUL !in ScopeNorm(requests[w].scope) && NUL !in ScopeNorm(requests[c].scope) {
        EqualKeys(lower, requests[w].scope, requests[w].query, requests[c].scope, requests[c].query);
      }
    }
  }
}
