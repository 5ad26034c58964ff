/**
  Keys built as "scope, separator, rest": the coalescing key and the in-memory index use a NUL byte
  (internal/coalesce/rag.go, internal/rules/memory_index.go), the Redis uniqueness index a newline
  (internal/rules/redis_store.go). None of them rules the separator out of the scope.
 */
module Separators {

  function Join(scope: string, sep: char, rest: string): string {
    scope + [sep] + rest
  }

  lemma JoinInjective(sep: char, s: string, k: string, s': string, k': string)
    requires sep !in s && sep !in s' && Join(s, sep, k) == Join(s', sep, k')
    ensures s == s' && k == k'
  {
    JoinClash(sep, s, k, s', k');
    PrefixHasSeparator(sep, s, s');
    PrefixHasSeparator(sep, s', s);
    JoinSameScope(sep, s, k, k');
  }

  lemma PrefixHasSeparator(sep: char, s: string, s': string)
    ensures s + [sep] <= s' ==> sep in s'
  {
    if s + [sep] <= s' {
      assert s'[|s|] == sep;
    }
  }

  lemma JoinSameScope(sep: char, s: string, k: string, k': string)
    ensures Join(s, sep, k) == Join(s, sep, k') ==> k == k'
  {
    assert Join(s, sep, k)[|s| + 1..] == k && Join(s, sep, k')[|s| + 1..] == k';
  }

  lemma JoinClash(sep: char, s: string, k: string, s': string, k': string)
    requires Join(s, sep, k) == Join(s', sep, k')
    ensures s == s' || s + [sep] <= s' || s' + [sep] <= s
  {
    var j := Join(s, sep, k);
    assert j[..|s|] == s && j[|s|] == sep && j[..|s'|] == s' && j[|s'|] == sep;
    if |s| < |s'| {
      assert s'[..|s|] == s && s'[|s|] == sep;
    } else if |s'| < |s| {
      assert s[..|s'|] == s' && s[|s'|] == sep;
    }
  }

  /**
    Exactly when two different scopes can be confused: some rest after the one makes the same key as some rest after
    the other if and only if one of them, followed by the separator, begins the other; empty rests are not needed.
   */
  lemma ScopesClashIff(sep: char, s: string, s': string)
    requires s != s'
    ensures (exists k, k' :: Join(s, sep, k) == Join(s', sep, k')) <==> s + [sep] <= s' || s' + [sep] <= s
    ensures (exists k, k' :: k != [] && k' != [] && Join(s, sep, k) == Join(s', sep, k'))
            <==> s + [sep] <= s' || s' + [sep] <= s
  {
    forall k, k' | Join(s, sep, k) == Join(s', sep, k') ensures s + [sep] <= s' || s' + [sep] <= s {
      JoinClash(sep, s, k, s', k');
    }
    if s + [sep] <= s' {
      var k := s'[|s| + 1..] + [sep] + "z";
      assert k != [] && Join(s, sep, k) == Join(s', sep, "z");
    }
    if s' + [sep] <= s {
      var k' := s[|s'| + 1..] + [sep] + "z";
      assert k' != [] && Join(s, sep, "z") == Join(s', sep, k');
    }
  }
}
