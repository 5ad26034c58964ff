/** SMEMBERS: a Redis set is listed in whatever order, every member once. */
module RedisSets {

  predicate Lists(listing: seq<string>, members: set<string>) {
    |listing| == |members| && (set id | id in listing) == members
  }

  lemma {:induction false} AtMostLength(listing: seq<string>)
    ensures |set id | id in listing| <= |listing|
  {
    if listing != [] {
      AtMostLength(listing[1..]);
      assert (set id | id in listing) == {listing[0]} + (set id | id in listing[1..]);
    }
  }

  lemma RepeatMeansFewer(listing: seq<string>, i: nat, j: nat)
    requires i < j < |listing| && listing[i] == listing[j]
    ensures |set id | id in listing| < |listing|
  {
    var rest := listing[..j] + listing[j + 1..];
    AtMostLength(rest);
    forall id | id in listing ensures id in rest {
      var k :| 0 <= k < |listing| && listing[k] == id;
      assert id == if k == j then rest[i] else if k < j then rest[k] else rest[k - 1];
    }
    assert (set id | id in rest) == (set id | id in listing);
  }

  lemma ListedOnce(listing: seq<string>, members: set<string>)
    requires Lists(listing, members)
    ensures forall i, j :: 0 <= i < j < |listing| ==> listing[i] != listing[j]
  {
    forall i, j | 0 <= i < j < |listing| ensures listing[i] != listing[j] {
      if listing[i] == listing[j] {
        RepeatMeansFewer(listing, i, j);
      }
    }
  }
}
