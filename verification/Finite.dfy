/** Finite sets of integers in order: SQL's MAX and ORDER BY on one column. */
module Finite {
  ghost function Any<T>(s: set<T>): (x: T)
    requires s != {}
    ensures x in s
  {
    var x :| x in s; x
  }

  lemma HasMember<T>(s: set<T>)
    requires s != {}
    ensures exists x :: x in s
  {
    var x := Any(s);
  }

  lemma {:induction false} MaxExists(keys: set<int>)
    requires keys != {}
    ensures exists m :: m in keys && forall k :: k in keys ==> k <= m
    decreases |keys|
  {
    var k := Any(keys);
    var rest := keys - {k};
    if rest == {} {
      assert forall k' :: k' in keys ==> k' in rest || k' == k;
    } else {
      MaxExists(rest);
      var m :| m in rest && forall k' :: k' in rest ==> k' <= m;
      var top := if k < m then m else k;
      assert forall k' :: k' in keys ==> k' in rest || k' == k;
      assert top in keys && forall k' :: k' in keys ==> k' <= top;
    }
  }

  function MaxOf(keys: set<int>): (m: int)
    requires keys != {}
    ensures m in keys && forall k :: k in keys ==> k <= m
  {
    MaxExists(keys);
    var m :| m in keys && forall k :: k in keys ==> k <= m;
    m
  }

  predicate Increasing(order: seq<int>) {
    forall i, j :: 0 <= i < j < |order| ==> order[i] < order[j]
  }

  lemma IncreasingAppend(order: seq<int>, m: int)
    requires Increasing(order) && forall k :: k in order ==> k < m
    ensures Increasing(order + [m])
  {
    assert forall i :: 0 <= i < |order| ==> order[i] in order;
  }

  /** ORDER BY ... ASC; AscendingIncreases says that it does. */
  function Ascending(keys: set<int>): (order: seq<int>)
    ensures forall k :: k in order <==> k in keys
    decreases |keys|
  {
    if keys == {} then [] else
      var m := MaxOf(keys);
      assert keys == keys - {m} + {m};
      Ascending(keys - {m}) + [m]
  }

  lemma {:induction false} AscendingIncreases(keys: set<int>)
    ensures Increasing(Ascending(keys))
    decreases |keys|
  {
    if keys != {} {
      var m := MaxOf(keys);
      AscendingIncreases(keys - {m});
      IncreasingAppend(Ascending(keys - {m}), m);
    }
  }
}
