/** Lists that a remote service answers with: everything that matches, each once, in an order of its own. */
module Listings {
  /** `xs` holds exactly the members of `s`, each once. */
  ghost predicate Lists<T(!new)>(xs: seq<T>, s: set<T>) {
    && (forall i, j :: 0 <= i < j < |xs| ==> xs[i] != xs[j])
    && (forall x :: x in xs <==> x in s)
  }

  /** The members of a set, in any order. */
  method ListOf<T(!new, ==)>(s: set<T>) returns (xs: seq<T>)
    ensures Lists(xs, s)
  {
    xs := [];
    var rest := s;
    while rest != {}
      invariant Lists(xs, s - rest)
      invariant rest <= s
      decreases |rest|
    {
      var x :| x in rest;
      rest, xs := rest - {x}, xs + [x];
    }
  }
}
