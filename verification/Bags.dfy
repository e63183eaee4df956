// The elements of a sequence without their order.

module Bags {

  ghost function Bag<T>(s: seq<T>): multiset<T> { multiset(s) }

  lemma BagCons<T>(x: T, s: seq<T>)
    ensures Bag([x] + s) == multiset{x} + Bag(s)
  {
  }

  lemma BagLast<T>(s: seq<T>)
    requires s != []
    ensures Bag(s) == Bag(s[..|s| - 1]) + multiset{s[|s| - 1]}
  {
    assert s == s[..|s| - 1] + [s[|s| - 1]];
  }

  lemma BagFirst<T>(s: seq<T>)
    requires s != []
    ensures Bag(s) == multiset{s[0]} + Bag(s[1..])
  {
    assert s == [s[0]] + s[1..];
  }

  function Without<T>(s: seq<T>, j: nat): seq<T>
    requires j < |s|
  {
    s[..j] + s[j + 1..]
  }

  lemma BagWithout<T>(s: seq<T>, j: nat)
    requires j < |s|
    ensures Bag(s) == Bag(Without(s, j)) + multiset{s[j]}
  {
    assert s == s[..j] + ([s[j]] + s[j + 1..]);
  }

  lemma BagFind<T>(s: seq<T>, x: T) returns (j: nat)
    requires x in Bag(s)
    ensures j < |s| && s[j] == x
  {
    j :| 0 <= j < |s| && s[j] == x;
  }

  lemma BagHas<T>(s: seq<T>, j: nat)
    requires j < |s|
    ensures s[j] in Bag(s)
  {
  }

  lemma BagSize<T>(s: seq<T>)
    ensures |Bag(s)| == |s|
  {
  }
}
