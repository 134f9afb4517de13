/**
 Causal graphs over event identifiers and the set algebra the reducers run on them:
 the ancestor search, the four-way causal relation, and the causal maxima of a set.
 */
module CausalGraph {

  /** The parents listed by each known identifier. An identifier that is listed as a
      parent need not be known itself, and cycles are not excluded. */
  type Graph<K(==)> = map<K, seq<K>>

  function Parents<K>(g: Graph<K>, id: K): seq<K> {
    if id in g then g[id] else []
  }

  /** `p` walks from an ancestor, p[0], down to a descendant, one parent edge per step. */
  ghost predicate IsPath<K>(g: Graph<K>, p: seq<K>) {
    |p| >= 2 && forall i :: 0 <= i < |p| - 1 ==> p[i] in Parents(g, p[i + 1])
  }

  ghost predicate PathBetween<K>(g: Graph<K>, p: seq<K>, a: K, d: K) {
    IsPath(g, p) && p[0] == a && p[|p| - 1] == d
  }

  /** `a` is a proper ancestor of `d`: some non-empty parent path leads from `a` to `d`. */
  ghost predicate Reaches<K(!new)>(g: Graph<K>, a: K, d: K) {
    exists p :: PathBetween(g, p, a, d)
  }

  ghost predicate Acyclic<K(!new)>(g: Graph<K>) {
    forall x :: !Reaches(g, x, x)
  }

  lemma EdgeReaches<K(!new)>(g: Graph<K>, a: K, d: K)
    requires a in Parents(g, d)
    ensures Reaches(g, a, d)
  {
    assert PathBetween(g, [a, d], a, d);
  }

  lemma ReachesTransitive<K(!new)>(g: Graph<K>, a: K, b: K, c: K)
    requires Reaches(g, a, b) && Reaches(g, b, c)
    ensures Reaches(g, a, c)
  {
    var p :| PathBetween(g, p, a, b);
    var q :| PathBetween(g, q, b, c);
    var r := p + q[1..];
    forall i | 0 <= i < |r| - 1
      ensures r[i] in Parents(g, r[i + 1])
    {
      if i >= |p| {
        assert r[i] == q[i - |p| + 1] && r[i + 1] == q[i - |p| + 2];
      } else if i == |p| - 1 {
        assert r[i] == q[0] && r[i + 1] == q[1];
      }
    }
    assert PathBetween(g, r, a, c);
  }

  /** A path ends in a parent edge. */
  lemma LastEdge<K(!new)>(g: Graph<K>, a: K, d: K) returns (m: K)
    requires Reaches(g, a, d)
    ensures m in Parents(g, d) && (m == a || Reaches(g, a, m))
  {
    var p :| PathBetween(g, p, a, d);
    m := p[|p| - 2];
    if |p| > 2 {
      assert PathBetween(g, p[..|p| - 1], a, m);
    }
  }

  /** A path starts with a parent edge. */
  lemma FirstEdge<K(!new)>(g: Graph<K>, a: K, d: K) returns (m: K)
    requires Reaches(g, a, d)
    ensures a in Parents(g, m) && (m == d || Reaches(g, m, d))
  {
    var p :| PathBetween(g, p, a, d);
    m := p[1];
    if |p| > 2 {
      assert PathBetween(g, p[1..], m, d);
    }
  }

  /** A set that holds the parents of `p`'s end and the parents of its own members
      holds everything on `p` above that end. */
  lemma {:induction false} UpwardClosed<K>(g: Graph<K>, s: set<K>, p: seq<K>, i: nat)
    requires IsPath(g, p) && i < |p| - 1
    requires forall y | y in Parents(g, p[|p| - 1]) :: y in s
    requires forall x, y | x in s && y in Parents(g, x) :: y in s
    ensures p[i] in s
    decreases |p| - i
  {
    if i < |p| - 2 {
      UpwardClosed(g, s, p, i + 1);
      assert p[i] in Parents(g, p[i + 1]);
    }
  }

  /** Every identifier that some known identifier lists as a parent. */
  ghost function Listed<K>(g: Graph<K>): set<K> {
    set k, x | k in g && x in g[k] :: x
  }

  /** The explicit-stack search. It ends on every finite graph, cyclic or with missing
      parents, and decides exactly whether a non-empty parent path exists. */
  method Ancestor<K(==, !new)>(g: Graph<K>, target: K, descendant: K) returns (found: bool)
    ensures found <==> Reaches(g, target, descendant)
  {
    var seen: set<K> := {};
    var stack := Parents(g, descendant);
    forall x | x in stack
      ensures Reaches(g, x, descendant)
    {
      EdgeReaches(g, x, descendant);
    }
    while |stack| > 0
      invariant forall x | x in stack :: x in Listed(g) && Reaches(g, x, descendant)
      invariant seen <= Listed(g) && target !in seen
      invariant forall x | x in seen :: Reaches(g, x, descendant)
      invariant forall y | y in Parents(g, descendant) :: y in seen || y in stack
      invariant forall x, y | x in seen && y in Parents(g, x) :: y in seen || y in stack
      decreases Listed(g) - seen, |stack|
    {
      var id := stack[|stack| - 1];
      ghost var before := stack;
      assert forall y | y in before :: y == id || y in before[..|before| - 1];
      stack := stack[..|stack| - 1];
      if id == target {
        return true;
      }
      if id !in seen {
        seen := seen + {id};
        forall x | x in Parents(g, id)
          ensures Reaches(g, x, descendant)
        {
          EdgeReaches(g, x, id);
          ReachesTransitive(g, x, id, descendant);
        }
        stack := stack + Parents(g, id);
      }
    }
    if Reaches(g, target, descendant) {
      var p :| PathBetween(g, p, target, descendant);
      UpwardClosed(g, seen, p, 0);
      assert false;
    }
    return false;
  }

  datatype Relation = Equal | Before | After | Concurrent

  /** The causal relation the documentation promises, in terms of paths. */
  ghost function RelationOf<K(!new)>(g: Graph<K>, left: K, right: K): Relation {
    if left == right then Equal
    else if Reaches(g, left, right) then Before
    else if Reaches(g, right, left) then After
    else Concurrent
  }

  method Relate<K(==, !new)>(g: Graph<K>, left: K, right: K) returns (r: Relation)
    ensures r == RelationOf(g, left, right)
  {
    if left == right {
      return Equal;
    }
    var before := Ancestor(g, left, right);
    if before {
      return Before;
    }
    var after := Ancestor(g, right, left);
    return if after then After else Concurrent;
  }

  /** Before and After mirror each other for every pair exactly when no two different
      identifiers reach one another; in particular on every acyclic graph. */
  lemma RelateMirrors<K(!new)>(g: Graph<K>)
    ensures (forall x, y :: RelationOf(g, x, y) == Before <==> RelationOf(g, y, x) == After)
       <==> (forall x, y :: x != y ==> !(Reaches(g, x, y) && Reaches(g, y, x)))
    ensures Acyclic(g) ==> forall x, y :: RelationOf(g, x, y) == Before <==> RelationOf(g, y, x) == After
  {
    forall x, y | x != y && Reaches(g, x, y) && Reaches(g, y, x)
      ensures RelationOf(g, x, y) == Before && RelationOf(g, y, x) != After
    {
    }
    if Acyclic(g) {
      forall x, y | Reaches(g, x, y) && Reaches(g, y, x)
        ensures false
      {
        ReachesTransitive(g, x, y, x);
      }
    }
  }

  lemma BeforeTransitive<K(!new)>(g: Graph<K>, x: K, y: K, z: K)
    requires Acyclic(g)
    requires RelationOf(g, x, y) == Before && RelationOf(g, y, z) == Before
    ensures RelationOf(g, x, z) == Before
  {
    ReachesTransitive(g, x, y, z);
  }

  /** The members of `values` with no other member causally after them. */
  ghost function MaximaOf<K(!new)>(g: Graph<K>, values: set<K>): set<K> {
    set x | x in values && forall y | y in values :: y == x || !Reaches(g, x, y)
  }

  /** The nested loops, run over the members in whatever order `items` lists them. */
  method Maxima<K(==, !new)>(g: Graph<K>, values: set<K>, items: seq<K>) returns (result: set<K>)
    requires forall x :: x in items <==> x in values
    ensures result == MaximaOf(g, values)
  {
    result := {};
    for i := 0 to |items|
      invariant forall x :: x in result <==> x in items[..i] && x in MaximaOf(g, values)
    {
      var candidate := items[i];
      var maximal := true;
      for j := 0 to |items|
        invariant maximal
        invariant forall y | y in items[..j] :: y == candidate || !Reaches(g, candidate, y)
      {
        if candidate != items[j] {
          var relation := Relate(g, candidate, items[j]);
          if relation == Before {
            maximal := false;
            break;
          }
        }
      }
      if maximal {
        assert items[..|items|] == items;
        result := result + {candidate};
      }
    }
    assert items[..|items|] == items;
  }

  /** On an acyclic graph a non-empty set has a maximum at or above each of its members. */
  lemma {:induction false} MaximumAbove<K(!new)>(g: Graph<K>, values: set<K>, x: K) returns (m: K)
    requires Acyclic(g) && x in values
    ensures m in MaximaOf(g, values) && (m == x || Reaches(g, x, m))
    decreases values
  {
    var above := set y | y in values && Reaches(g, x, y);
    if above == {} {
      assert forall y | y in values :: y !in above;
      m := x;
    } else {
      var y :| y in above;
      assert x !in above && above < values;
      m := MaximumAbove(g, above, y);
      forall z | z in values && Reaches(g, m, z)
        ensures z in above
      {
        ReachesTransitive(g, x, m, z);
      }
    }
  }

  /** Dually, a non-empty set has a member none of whose ancestors are in the set. */
  lemma {:induction false} MinimumExists<K(!new)>(g: Graph<K>, values: set<K>) returns (m: K)
    requires Acyclic(g) && values != {}
    ensures m in values && forall y | y in values :: !Reaches(g, y, m)
    decreases values
  {
    var x :| x in values;
    var below := set y | y in values && Reaches(g, y, x);
    if below == {} {
      assert forall y | y in values :: y !in below;
      m := x;
    } else {
      assert x !in below && below < values;
      m := MinimumExists(g, below);
      forall z | z in values && Reaches(g, z, m)
        ensures z in below
      {
        ReachesTransitive(g, z, m, x);
      }
    }
  }

  /** The maxima of a non-empty set are a non-empty antichain that covers the set. */
  lemma MaximaCover<K(!new)>(g: Graph<K>, values: set<K>)
    requires Acyclic(g)
    ensures values != {} ==> MaximaOf(g, values) != {}
    ensures forall x, y | x in MaximaOf(g, values) && y in MaximaOf(g, values) && x != y ::
              RelationOf(g, x, y) == Concurrent
    ensures forall x | x in values :: exists m :: m in MaximaOf(g, values) && (m == x || Reaches(g, x, m))
  {
    forall x | x in values
      ensures exists m :: m in MaximaOf(g, values) && (m == x || Reaches(g, x, m))
    {
      var m := MaximumAbove(g, values, x);
    }
    if values != {} {
      var x :| x in values;
      var m := MaximumAbove(g, values, x);
    }
  }

  /** Maxima can be taken batch by batch: reducing two batches first loses nothing. */
  lemma MaximaOfUnion<K(!new)>(g: Graph<K>, a: set<K>, b: set<K>)
    requires Acyclic(g)
    ensures MaximaOf(g, a + b) == MaximaOf(g, MaximaOf(g, a) + MaximaOf(g, b))
  {
    var reduced := MaximaOf(g, a) + MaximaOf(g, b);
    forall x, y | x in reduced && y in a + b && Reaches(g, x, y)
      ensures exists m :: m in reduced && Reaches(g, x, m)
    {
      var m := MaximumAbove(g, if y in a then a else b, y);
      if m != y {
        ReachesTransitive(g, x, y, m);
      }
      assert m in reduced && Reaches(g, x, m);
    }
  }
}
