/** Going through a map's keys one by one, in the unspecified order a map is gone through in. */
module MapOrder {
  /** Every key once. */
  predicate Lists(order: seq<int>, keys: set<int>) {
    if order == [] then keys == {}
    else
      var last := order[|order| - 1];
      last in keys && Lists(order[..|order| - 1], keys - {last})
  }

  lemma {:induction false} ListsEach(order: seq<int>, keys: set<int>)
    requires Lists(order, keys)
    ensures forall i :: 0 <= i < |order| ==> order[i] in keys
    ensures forall u :: u in keys ==> u in order
  {
    if order != [] {
      var last := order[|order| - 1];
      ListsEach(order[..|order| - 1], keys - {last});
      assert order == order[..|order| - 1] + [last];
    }
  }

  lemma {:induction false} ListsOnce(order: seq<int>, keys: set<int>, i: nat, u: int)
    requires Lists(order, keys) && i < |order| && u == order[i]
    ensures u !in order[..i]
    decreases |order|
  {
    var n := |order| - 1;
    if i == n {
      ListsEach(order[..n], keys - {u});
    } else {
      ListsOnce(order[..n], keys - {order[n]}, i, u);
      assert order[..n][..i] == order[..i];
    }
  }

  lemma EmptyOrNot(s: set<int>)
    ensures s == {} || exists u :: u in s
  {
    if forall u :: u !in s {
      assert s == {};
    }
  }

  method ListKeys(keys: set<int>) returns (order: seq<int>)
    ensures Lists(order, keys)
  {
    var todo: set<int> := keys;
    order := [];
    while todo != {}
      invariant todo <= keys && Lists(order, keys - todo)
      decreases |todo|
    {
      EmptyOrNot(todo);
      var u :| u in todo;
      assert keys - (todo - {u}) == keys - todo + {u};
      order := order + [u];
      todo := todo - {u};
    }
    assert keys - {} == keys;
  }
}
