/** Walking an unordered container: its elements come in some order, each of them once. */
module Walks {
  import opened Nodes

  lemma OneMore(order: seq<nat>, x: nat)
    requires Distinct(order) && x !in Range(order)
    ensures Distinct(order + [x]) && Range(order + [x]) == Range(order) + {x}
  {
  }

  /** The elements of a set in some order. */
  method AnyOrder(s: set<nat>) returns (order: seq<nat>)
    ensures Range(order) == s && Distinct(order) && |order| == |s|
  {
    order := [];
    var rest := s;
    while rest != {}
      invariant Range(order) + rest == s && Range(order) !! rest
      invariant Distinct(order) && |order| + |rest| == |s|
      decreases rest
    {
      var x :| x in rest;
      OneMore(order, x);
      order := order + [x];
      rest := rest - {x};
    }
  }
}
