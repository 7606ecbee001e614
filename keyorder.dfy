/**
 * The order in which a JavaScript engine enumerates the array-index keys of a
 * plain object (integers below 2^32 - 1): ascending numeric order, whatever
 * order they were inserted in. Larger integer keys would follow in insertion
 * order; the model assumes every product id is below that bound.
 */
module KeyOrder {

  predicate Increasing(s: seq<nat>) {
    forall i, j :: 0 <= i < j < |s| ==> s[i] < s[j]
  }

  predicate Distinct(s: seq<nat>) {
    forall i, j :: 0 <= i < j < |s| ==> s[i] != s[j]
  }

  lemma IncreasingIsDistinct(s: seq<nat>)
    requires Increasing(s)
    ensures Distinct(s)
  {
  }

  /** The least element of a non-empty set of keys. */
  ghost function Min(s: set<nat>): (m: nat)
    requires s != {}
    ensures m in s && forall y :: y in s ==> m <= y
    decreases |s|
  {
    var x :| x in s;
    if s - {x} == {} then
      assert forall y :: y in s ==> y in s - {x} || y == x;
      x
    else
      var m' := Min(s - {x});
      assert forall y :: y in s ==> y in s - {x} || y == x;
      if x <= m' then x else m'
  }

  /** Picks the least key of a non-empty set, as the engine does when it enumerates integer keys. */
  method LeastKey(s: set<nat>) returns (m: nat)
    requires s != {}
    ensures m == Min(s)
  {
    ghost var least := Min(s);
    m :| m in s && forall j :: j in s ==> m <= j;
  }

  /** The keys of `s` listed in ascending order, as `Object.keys` lists them. */
  ghost function Ascending(s: set<nat>): seq<nat>
    decreases |s|
  {
    if s == {} then [] else [Min(s)] + Ascending(s - {Min(s)})
  }

  /** The listing is strictly increasing and holds exactly the keys of the set. */
  lemma {:induction false} AscendingSpec(s: set<nat>)
    ensures Increasing(Ascending(s))
    ensures forall x :: x in Ascending(s) <==> x in s
    decreases |s|
  {
    if s != {} {
      var m := Min(s);
      var rest := Ascending(s - {m});
      AscendingSpec(s - {m});
      assert Ascending(s) == [m] + rest;
      assert forall i :: 0 <= i < |rest| ==> rest[i] in s - {m};
    }
  }
}
