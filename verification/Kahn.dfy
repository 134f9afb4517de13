/**
 Display order: repeatedly emit the least record all of whose selected parents have been
 emitted. The reducer and the store run this loop over messages, conversation events and
 conversation entries; the bookkeeping is shared here.
 */
module Kahn {
  import opened CausalGraph
  import opened Sorting

  /** `c` may be emitted next: it is selected, not yet emitted, and its selected parents are. */
  ghost predicate Ready<K>(g: Graph<K>, nodes: set<K>, emitted: set<K>, c: K) {
    c in nodes && c !in emitted && forall p | p in Parents(g, c) && p in nodes :: p in emitted
  }

  /** Every element is the least ready one at its turn, and at the end none is ready. */
  ghost predicate LeastReadyOrder<K(!new)>(g: Graph<K>, nodes: set<K>, less: (K, K) -> bool, s: seq<K>) {
    && EmitsLeastReady(g, nodes, less, s)
    && forall c :: !Ready(g, nodes, Elements(s), c)
  }

  ghost predicate EmitsLeastReady<K(!new)>(g: Graph<K>, nodes: set<K>, less: (K, K) -> bool, s: seq<K>) {
    forall i | 0 <= i < |s| ::
      && Ready(g, nodes, Elements(s[..i]), s[i])
      && forall c | Ready(g, nodes, Elements(s[..i]), c) :: c == s[i] || less(s[i], c)
  }

  /** At most one sequence has that property, so the result depends on nothing else. */
  lemma LeastReadyOrderUnique<K(!new)>(g: Graph<K>, nodes: set<K>, less: (K, K) -> bool, s: seq<K>, t: seq<K>)
    requires StrictTotalOn(less, nodes)
    requires LeastReadyOrder(g, nodes, less, s) && LeastReadyOrder(g, nodes, less, t)
    ensures s == t
  {
    SamePrefix(g, nodes, less, s, t, if |s| <= |t| then |s| else |t|);
    assert s[..|s|] == s && t[..|t|] == t;
  }

  lemma {:induction false} SamePrefix<K(!new)>(
      g: Graph<K>, nodes: set<K>, less: (K, K) -> bool, s: seq<K>, t: seq<K>, n: nat)
    requires StrictTotalOn(less, nodes) && n <= |s| && n <= |t|
    requires EmitsLeastReady(g, nodes, less, s) && EmitsLeastReady(g, nodes, less, t)
    ensures s[..n] == t[..n]
  {
    if n > 0 {
      SamePrefix(g, nodes, less, s, t, n - 1);
      assert s[n - 1] == t[n - 1];
      assert s[..n] == s[..n - 1] + [s[n - 1]] && t[..n] == t[..n - 1] + [t[n - 1]];
    }
  }

  /** A record that was not ready one turn earlier has the record emitted then as a parent. */
  lemma NewlyReady<K(!new)>(g: Graph<K>, nodes: set<K>, less: (K, K) -> bool, s: seq<K>, i: nat)
    requires EmitsLeastReady(g, nodes, less, s) && i + 1 < |s|
    ensures less(s[i], s[i + 1]) || (s[i] in Parents(g, s[i + 1]) && s[i] in nodes)
  {
    assert s[..i + 1] == s[..i] + [s[i]];
    assert s[i] in Elements(s[..i + 1]);
    if Ready(g, nodes, Elements(s[..i]), s[i + 1]) {
      assert s[i + 1] != s[i];
    } else {
      assert s[i + 1] !in Elements(s[..i]);
      var p :| p in Parents(g, s[i + 1]) && p in nodes && p !in Elements(s[..i]);
      assert p in Elements(s[..i + 1]);
    }
  }

  lemma EmittedIsSelected<K(!new)>(g: Graph<K>, nodes: set<K>, less: (K, K) -> bool, s: seq<K>, i: nat)
    requires EmitsLeastReady(g, nodes, less, s) && i < |s|
    ensures s[i] in nodes
  {
  }

  /** No record ranks below its parents, nor below a lesser record. */
  ghost predicate RanksFit<K(!new)>(g: Graph<K>, nodes: set<K>, less: (K, K) -> bool, rank: map<K, int>) {
    && nodes <= rank.Keys
    && (forall a, b | a in nodes && b in nodes && less(a, b) :: rank[a] <= rank[b])
    && (forall c, p | c in nodes && p in nodes && p in Parents(g, c) :: rank[p] <= rank[c])
  }

  lemma RankStep<K(!new)>(g: Graph<K>, nodes: set<K>, less: (K, K) -> bool, s: seq<K>, rank: map<K, int>, i: nat)
    requires EmitsLeastReady(g, nodes, less, s) && RanksFit(g, nodes, less, rank) && i + 1 < |s|
    ensures s[i] in rank && s[i + 1] in rank && rank[s[i]] <= rank[s[i + 1]]
  {
    var a, b := s[i], s[i + 1];
    assert a in nodes && b in nodes;
    NewlyReady(g, nodes, less, s, i);
    if less(a, b) {
      assert rank[a] <= rank[b];
    }
  }

  /** Then ranks never fall along the order. */
  lemma {:induction false} RanksNeverFall<K(!new)>(
      g: Graph<K>, nodes: set<K>, less: (K, K) -> bool, s: seq<K>, rank: map<K, int>, i: nat, j: nat)
    requires EmitsLeastReady(g, nodes, less, s) && RanksFit(g, nodes, less, rank) && i < j < |s|
    ensures s[i] in rank && s[j] in rank && rank[s[i]] <= rank[s[j]]
    decreases j - i
  {
    RankStep(g, nodes, less, s, rank, j - 1);
    if i < j - 1 {
      RanksNeverFall(g, nodes, less, s, rank, i, j - 1);
    }
  }

  /** The part of the graph between selected records. */
  ghost predicate InducedPath<K>(g: Graph<K>, nodes: set<K>, p: seq<K>) {
    IsPath(g, p) && forall x | x in p :: x in nodes
  }

  /** Some parent cycle runs through selected records only. */
  ghost predicate HasCycle<K(!new)>(g: Graph<K>, nodes: set<K>) {
    exists p :: InducedPath(g, nodes, p) && p[0] == p[|p| - 1]
  }

  /** No record is emitted twice, and selected parents come first. */
  lemma ParentsComeFirst<K(!new)>(g: Graph<K>, nodes: set<K>, less: (K, K) -> bool, s: seq<K>)
    requires EmitsLeastReady(g, nodes, less, s)
    ensures forall i, j | 0 <= i < j < |s| :: s[i] != s[j]
    ensures forall j, p | 0 <= j < |s| && p in Parents(g, s[j]) && p in nodes :: p in s[..j]
    ensures Elements(s) <= nodes && |Elements(s)| == |s|
  {
    forall i, j | 0 <= i < j < |s|
      ensures s[i] != s[j]
    {
      assert s[i] == s[..j][i] && s[i] in Elements(s[..j]);
    }
    CountElements(s);
  }

  lemma {:induction false} CountElements<K>(s: seq<K>)
    requires forall i, j | 0 <= i < j < |s| :: s[i] != s[j]
    ensures |Elements(s)| == |s|
  {
    if s != [] {
      var n := |s| - 1;
      CountElements(s[..n]);
      assert s == s[..n] + [s[n]];
      assert Elements(s) == Elements(s[..n]) + {s[n]};
    }
  }

  /** Every selected record is emitted exactly when no cycle runs through the selection. */
  lemma EmitsAllUnlessCycle<K(!new)>(g: Graph<K>, nodes: set<K>, less: (K, K) -> bool, s: seq<K>)
    requires LeastReadyOrder(g, nodes, less, s)
    ensures |s| == |nodes| <==> !HasCycle(g, nodes)
    ensures |s| == |nodes| <==> Elements(s) == nodes
  {
    ParentsComeFirst(g, nodes, less, s);
    if |s| == |nodes| {
      SubsetOfSameSize(Elements(s), nodes);
    }
    if Elements(s) == nodes {
      AllEmittedHasNoCycle(g, nodes, less, s);
    } else {
      LeftoverHasCycle(g, nodes, less, s);
    }
  }

  /** On acyclic parents, every selected record exactly once, selected parents first. */
  lemma AcyclicOrderIsComplete<K(!new)>(g: Graph<K>, nodes: set<K>, less: (K, K) -> bool, s: seq<K>)
    requires Acyclic(g) && LeastReadyOrder(g, nodes, less, s)
    ensures Elements(s) == nodes && Distinct(s)
    ensures forall j, p | 0 <= j < |s| && p in Parents(g, s[j]) && p in nodes :: p in s[..j]
  {
    ParentsComeFirst(g, nodes, less, s);
    EmitsAllUnlessCycle(g, nodes, less, s);
    if HasCycle(g, nodes) {
      var p :| InducedPath(g, nodes, p) && p[0] == p[|p| - 1];
      assert PathBetween(g, p, p[0], p[0]);
      assert Reaches(g, p[0], p[0]);
    }
  }

  lemma AllEmittedHasNoCycle<K(!new)>(g: Graph<K>, nodes: set<K>, less: (K, K) -> bool, s: seq<K>)
    requires EmitsLeastReady(g, nodes, less, s) && Elements(s) == nodes
    ensures !HasCycle(g, nodes)
  {
    forall p | InducedPath(g, nodes, p)
      ensures p[0] != p[|p| - 1]
    {
      assert p[0] in p && p[0] in Elements(s);
      var i :| 0 <= i < |s| && s[i] == p[0];
      PathGoesForward(g, nodes, less, s, p, 0, i);
      ParentsComeFirst(g, nodes, less, s);
    }
  }

  lemma LeftoverHasCycle<K(!new)>(g: Graph<K>, nodes: set<K>, less: (K, K) -> bool, s: seq<K>)
    requires LeastReadyOrder(g, nodes, less, s) && Elements(s) <= nodes && Elements(s) != nodes
    ensures HasCycle(g, nodes)
  {
    var left := nodes - Elements(s);
    forall c | c in left
      ensures exists p :: p in Parents(g, c) && p in left
    {
      assert !Ready(g, nodes, Elements(s), c);
    }
    assert nodes == Elements(s) + left;
    StuckMeansCycle(g, nodes, left);
  }

  lemma SubsetOfSameSize<K>(a: set<K>, b: set<K>)
    requires a <= b && |a| == |b|
    ensures a == b
  {
    assert b == a + (b - a) && |b| == |a| + |b - a|;
  }

  /** Along a path through emitted records, positions increase strictly. */
  lemma {:induction false} PathGoesForward<K(!new)>(
      g: Graph<K>, nodes: set<K>, less: (K, K) -> bool, s: seq<K>, p: seq<K>, k: nat, i: nat)
    requires EmitsLeastReady(g, nodes, less, s) && Elements(s) == nodes
    requires InducedPath(g, nodes, p) && k < |p| - 1 && i < |s| && s[i] == p[k]
    ensures exists j :: i < j < |s| && s[j] == p[|p| - 1]
    decreases |p| - k
  {
    ParentsComeFirst(g, nodes, less, s);
    assert p[k + 1] in p;
    var j :| 0 <= j < |s| && s[j] == p[k + 1];
    assert p[k] in Parents(g, s[j]) && p[k] in s[..j];
    if k + 1 < |p| - 1 {
      PathGoesForward(g, nodes, less, s, p, k + 1, j);
    }
  }

  lemma RestrictedParents<K>(g: Graph<K>, keep: set<K>, c: K, x: K)
    ensures x in Parents(Restrict(g, keep), c) <==> c in keep && x in keep && x in Parents(g, c)
  {
    FilterMembers(Parents(g, c), keep);
  }

  lemma NoMinimumNoOrder<K(!new)>(g: Graph<K>, stuck: set<K>)
    requires stuck != {} && forall c | c in stuck :: exists p :: p in Parents(g, c) && p in stuck
    ensures !Acyclic(Restrict(g, stuck))
  {
    var inner := Restrict(g, stuck);
    if Acyclic(inner) {
      var m := MinimumExists(inner, stuck);
      var p :| p in Parents(g, m) && p in stuck;
      RestrictedParents(g, stuck, m, p);
      EdgeReaches(inner, p, m);
    }
  }

  /** A non-empty set in which every record has a parent in the set contains a cycle. */
  lemma StuckMeansCycle<K(!new)>(g: Graph<K>, nodes: set<K>, stuck: set<K>)
    requires stuck != {} && stuck <= nodes
    requires forall c | c in stuck :: exists p :: p in Parents(g, c) && p in stuck
    ensures HasCycle(g, nodes)
  {
    NoMinimumNoOrder(g, stuck);
    CycleLifts(g, nodes, stuck);
  }

  lemma CycleLifts<K(!new)>(g: Graph<K>, nodes: set<K>, stuck: set<K>)
    requires stuck <= nodes && !Acyclic(Restrict(g, stuck))
    ensures HasCycle(g, nodes)
  {
    var inner := Restrict(g, stuck);
    var x :| Reaches(inner, x, x);
    var p :| PathBetween(inner, p, x, x);
    forall i | 0 <= i < |p| - 1
      ensures p[i] in Parents(g, p[i + 1]) && p[i] in stuck
    {
      assert p[i] in Parents(inner, p[i + 1]);
      RestrictedParents(g, stuck, p[i + 1], p[i]);
    }
    assert InducedPath(g, nodes, p);
  }

  ghost function Filter<K>(s: seq<K>, keep: set<K>): seq<K> {
    if s == [] then [] else (if s[0] in keep then [s[0]] else []) + Filter(s[1..], keep)
  }

  lemma {:induction false} FilterMembers<K>(s: seq<K>, keep: set<K>)
    ensures forall x :: x in Filter(s, keep) <==> x in s && x in keep
  {
    if s != [] {
      FilterMembers(s[1..], keep);
      assert s == [s[0]] + s[1..];
    }
  }

  /** `g` cut down to edges between members of `keep`. */
  ghost function Restrict<K>(g: Graph<K>, keep: set<K>): Graph<K> {
    map c | c in g && c in keep :: Filter(g[c], keep)
  }

  // ------------------------------------------------------------------ the bookkeeping

  /** How many edges lead from `c` up into `ps`. An edge may be counted several times. */
  ghost function Count<K>(edges: seq<(K, K)>, c: K, ps: set<K>): nat {
    if edges == [] then 0 else
      var last := edges[|edges| - 1];
      Count(edges[..|edges| - 1], c, ps) + if last.0 == c && last.1 in ps then 1 else 0
  }

  lemma {:induction false} CountZero<K>(edges: seq<(K, K)>, c: K, ps: set<K>)
    ensures Count(edges, c, ps) == 0 <==> forall p | p in ps :: (c, p) !in edges
  {
    if edges != [] {
      var n := |edges| - 1;
      CountZero(edges[..n], c, ps);
      assert edges == edges[..n] + [edges[n]];
    }
  }

  lemma {:induction false} CountSplit<K>(edges: seq<(K, K)>, c: K, ps: set<K>, p: K)
    requires p in ps
    ensures Count(edges, c, ps) == Count(edges, c, ps - {p}) + Count(edges, c, {p})
  {
    if edges != [] {
      CountSplit(edges[..|edges| - 1], c, ps, p);
    }
  }

  ghost function Occurrences<K>(s: seq<K>, x: K): nat {
    if s == [] then 0 else Occurrences(s[..|s| - 1], x) + if s[|s| - 1] == x then 1 else 0
  }

  lemma {:induction false} OccurrencesGrow<K>(s: seq<K>, j: nat, x: K)
    requires j <= |s|
    ensures Occurrences(s[..j], x) <= Occurrences(s, x)
    ensures j < |s| ==> Occurrences(s[..j + 1], x) == Occurrences(s[..j], x) + if s[j] == x then 1 else 0
    ensures Occurrences(s, x) > 0 <==> x in s
  {
    if j < |s| {
      assert s[..j + 1][..j] == s[..j];
    }
    if s != [] {
      var n := |s| - 1;
      OccurrencesGrow(s[..n], if j <= n then j else n, x);
      assert s == s[..n] + [s[n]];
      if j <= n {
        assert s[..n][..j] == s[..j];
      } else {
        assert s[..j] == s;
      }
    }
  }

  function ChildrenOf<K>(children: map<K, seq<K>>, p: K): seq<K> {
    if p in children then children[p] else []
  }

  /** `remaining` counts the edges up into the selection, `children` lists them downwards. */
  ghost predicate BooksKept<K(!new)>(
    nodes: set<K>, edges: seq<(K, K)>, remaining: map<K, int>, children: map<K, seq<K>>)
  {
    && remaining.Keys == nodes
    && (forall c | c in nodes :: remaining[c] == Count(edges, c, nodes))
    && (forall p, c :: Occurrences(ChildrenOf(children, p), c) == Count(edges, c, {p}))
    && (forall c, p | (c, p) in edges :: c in nodes && p in nodes)
  }

  lemma CountAppend<K>(edges: seq<(K, K)>, c: K, p: K, x: K, ps: set<K>)
    ensures Count(edges + [(c, p)], x, ps) == Count(edges, x, ps) + if c == x && p in ps then 1 else 0
  {
    assert (edges + [(c, p)])[..|edges|] == edges;
  }

  lemma OccurrencesAppend<K>(s: seq<K>, y: K, x: K)
    ensures Occurrences(s + [y], x) == Occurrences(s, x) + if y == x then 1 else 0
  {
    assert (s + [y])[..|s|] == s;
  }

  lemma BooksAddEdge<K(!new)>(
      nodes: set<K>, edges: seq<(K, K)>, remaining: map<K, int>, children: map<K, seq<K>>, child: K, parent: K)
    requires BooksKept(nodes, edges, remaining, children) && child in nodes && parent in nodes
    ensures BooksKept(nodes, edges + [(child, parent)], remaining[child := remaining[child] + 1],
                      children[parent := ChildrenOf(children, parent) + [child]])
  {
    var more := edges + [(child, parent)];
    var counts := remaining[child := remaining[child] + 1];
    var lists := children[parent := ChildrenOf(children, parent) + [child]];
    forall c | c in nodes
      ensures counts[c] == Count(more, c, nodes)
    {
      CountAppend(edges, child, parent, c, nodes);
    }
    forall p, c
      ensures Occurrences(ChildrenOf(lists, p), c) == Count(more, c, {p})
    {
      CountAppend(edges, child, parent, c, {p});
      OccurrencesAppend(ChildrenOf(children, parent), child, c);
    }
  }

  /** The recorded edges are the graph's edges between selected records. */
  ghost predicate EdgesOf<K(!new)>(g: Graph<K>, nodes: set<K>, edges: seq<(K, K)>) {
    forall c, p :: (c, p) in edges <==> c in nodes && p in nodes && p in Parents(g, c)
  }

  lemma ReadyIsZero<K(!new)>(g: Graph<K>, nodes: set<K>, edges: seq<(K, K)>, emitted: set<K>, c: K)
    requires EdgesOf(g, nodes, edges)
    ensures Ready(g, nodes, emitted, c) <==>
            c in nodes && c !in emitted && Count(edges, c, nodes - emitted) == 0
  {
    CountZero(edges, c, nodes - emitted);
  }

  /** The inner loop: one emitted parent less for each listed child. */
  method ReleaseChildren<K(==, !new)>(kids: seq<K>, remaining: map<K, int>, ready: seq<K>)
      returns (counts: map<K, int>, queue: seq<K>)
    requires Distinct(ready)
    requires forall c | c in kids :: c in remaining && c !in ready && remaining[c] >= Occurrences(kids, c)
    ensures counts.Keys == remaining.Keys
    ensures forall c | c in remaining :: counts[c] == remaining[c] - Occurrences(kids, c)
    ensures forall c :: c in queue <==> c in ready || (c in kids && counts[c] == 0)
    ensures Distinct(queue)
  {
    counts, queue := remaining, ready;
    for j := 0 to |kids|
      invariant counts.Keys == remaining.Keys
      invariant forall c | c in remaining :: counts[c] == remaining[c] - Occurrences(kids[..j], c)
      invariant forall c :: c in queue <==> c in ready || (c in kids[..j] && counts[c] == 0)
      invariant Distinct(queue)
    {
      var child := kids[j];
      assert kids[..j + 1] == kids[..j] + [child];
      forall c
        ensures Occurrences(kids[..j + 1], c) == Occurrences(kids[..j], c) + if child == c then 1 else 0
        ensures Occurrences(kids[..j + 1], c) <= Occurrences(kids, c)
      {
        OccurrencesGrow(kids, j, c);
        OccurrencesGrow(kids, j + 1, c);
      }
      counts := counts[child := counts[child] - 1];
      if counts[child] == 0 {
        queue := queue + [child];
      }
    }
    assert kids[..|kids|] == kids;
  }

  /** Where the ordering loop stands. */
  ghost predicate Underway<K(!new)>(
    g: Graph<K>, nodes: set<K>, edges: seq<(K, K)>, less: (K, K) -> bool,
    ordered: seq<K>, counts: map<K, int>, queue: seq<K>)
  {
    var emitted := Elements(ordered);
    && emitted <= nodes == counts.Keys
    && (forall c | c in nodes :: counts[c] == Count(edges, c, nodes - emitted))
    && (forall c :: c in queue <==> c in nodes && c !in emitted && counts[c] == 0)
    && (forall c | c in emitted :: counts[c] == 0)
    && Distinct(queue)
    && EmitsLeastReady(g, nodes, less, ordered)
  }

  /** The ordering loop. */
  method EmitReady<K(==, !new)>(
      remaining: map<K, int>, children: map<K, seq<K>>, ready: seq<K>, less: (K, K) -> bool,
      ghost g: Graph<K>, ghost nodes: set<K>, ghost edges: seq<(K, K)>)
      returns (ordered: seq<K>)
    requires StrictTotalOn(less, nodes)
    requires BooksKept(nodes, edges, remaining, children) && EdgesOf(g, nodes, edges)
    requires Distinct(ready) && forall c :: c in ready <==> c in nodes && remaining[c] == 0
    ensures LeastReadyOrder(g, nodes, less, ordered)
  {
    ordered := [];
    var counts, queue := remaining, ready;
    assert nodes - Elements(ordered) == nodes;
    while |queue| > 0
      invariant Underway(g, nodes, edges, less, ordered, counts, queue)
      decreases nodes - Elements(ordered)
    {
      ordered, counts, queue := EmitOne(remaining, children, less, ordered, counts, queue, g, nodes, edges);
    }
    forall c
      ensures !Ready(g, nodes, Elements(ordered), c)
    {
      ReadyIsZero(g, nodes, edges, Elements(ordered), c);
    }
  }

  /** One pass: sort the queue, emit its head, release the head's children. */
  method EmitOne<K(==, !new)>(
      ghost remaining: map<K, int>, children: map<K, seq<K>>, less: (K, K) -> bool,
      ordered: seq<K>, counts: map<K, int>, queue: seq<K>,
      ghost g: Graph<K>, ghost nodes: set<K>, ghost edges: seq<(K, K)>)
      returns (ordered': seq<K>, counts': map<K, int>, queue': seq<K>)
    requires StrictTotalOn(less, nodes)
    requires BooksKept(nodes, edges, remaining, children) && EdgesOf(g, nodes, edges)
    requires Underway(g, nodes, edges, less, ordered, counts, queue) && queue != []
    ensures Underway(g, nodes, edges, less, ordered', counts', queue')
    ensures Elements(ordered) < Elements(ordered')
  {
    assert Elements(queue) <= nodes;
    var sorted := SortBy(queue, less);
    var id := sorted[0];
    EmitStep(g, nodes, edges, less, ordered, counts, sorted);
    KidsAreWaiting(nodes, edges, remaining, children, counts, Elements(ordered), id);
    var kids := ChildrenOf(children, id);
    counts', queue' := ReleaseChildren(kids, counts, sorted[1..]);
    ordered' := ordered + [id];
    StillUnderway(g, nodes, edges, less, ordered, counts, sorted, kids, counts', queue');
  }

  lemma StillUnderway<K(!new)>(
      g: Graph<K>, nodes: set<K>, edges: seq<(K, K)>, less: (K, K) -> bool,
      ordered: seq<K>, counts: map<K, int>, queue: seq<K>, kids: seq<K>, counts': map<K, int>, queue': seq<K>)
    requires queue != []
    requires Elements(ordered) <= nodes == counts.Keys == counts'.Keys
    requires EmitsLeastReady(g, nodes, less, ordered + [queue[0]])
    requires forall c :: c in queue <==> c in nodes && c !in Elements(ordered) && counts[c] == 0
    requires forall c :: c in queue[1..] <==> c in queue && c != queue[0]
    requires forall c | c in nodes ::
               counts[c] == Count(edges, c, nodes - (Elements(ordered) + {queue[0]})) + Occurrences(kids, c)
    requires forall c | c in kids :: c in nodes
    requires forall c :: Occurrences(kids, c) > 0 <==> c in kids
    requires forall c | c in kids :: counts[c] > 0
    requires forall c | c in nodes :: counts'[c] == counts[c] - Occurrences(kids, c)
    requires forall c :: c in queue' <==> c in queue[1..] || (c in kids && counts'[c] == 0)
    requires Distinct(queue')
    requires forall c | c in Elements(ordered) :: counts[c] == 0
    ensures Underway(g, nodes, edges, less, ordered + [queue[0]], counts', queue')
    ensures Elements(ordered) < Elements(ordered + [queue[0]])
  {
    var id := queue[0];
    assert Elements(ordered + [id]) == Elements(ordered) + {id};
  }

  /** The head of the sorted queue is the least ready record. */
  lemma EmitStep<K(!new)>(
      g: Graph<K>, nodes: set<K>, edges: seq<(K, K)>, less: (K, K) -> bool,
      ordered: seq<K>, counts: map<K, int>, queue: seq<K>)
    requires StrictTotalOn(less, nodes) && EdgesOf(g, nodes, edges)
    requires queue != [] && SortedBy(less, queue)
    requires Underway(g, nodes, edges, less, ordered, counts, queue)
    ensures EmitsLeastReady(g, nodes, less, ordered + [queue[0]])
    ensures Elements(ordered + [queue[0]]) == Elements(ordered) + {queue[0]}
    ensures Distinct(queue[1..]) && forall c :: c in queue[1..] <==> c in queue && c != queue[0]
  {
    var emitted := Elements(ordered);
    assert queue == [queue[0]] + queue[1..];
    forall c
      ensures Ready(g, nodes, emitted, c) <==> c in queue
    {
      ReadyIsZero(g, nodes, edges, emitted, c);
    }
    var longer := ordered + [queue[0]];
    forall i | 0 <= i < |longer|
      ensures Ready(g, nodes, Elements(longer[..i]), longer[i])
      ensures forall c | Ready(g, nodes, Elements(longer[..i]), c) :: c == longer[i] || less(longer[i], c)
    {
      if i < |ordered| {
        assert longer[..i] == ordered[..i];
      } else {
        assert longer[..i] == ordered;
      }
    }
  }

  /** The children of a record about to be emitted still count it, so they are not queued. */
  lemma KidsAreWaiting<K(!new)>(
      nodes: set<K>, edges: seq<(K, K)>, remaining: map<K, int>, children: map<K, seq<K>>,
      counts: map<K, int>, emitted: set<K>, id: K)
    requires BooksKept(nodes, edges, remaining, children) && id in nodes && id !in emitted
    requires counts.Keys == nodes && forall c | c in nodes :: counts[c] == Count(edges, c, nodes - emitted)
    ensures forall c | c in nodes ::
              counts[c] == Count(edges, c, nodes - (emitted + {id})) + Occurrences(ChildrenOf(children, id), c)
    ensures forall c | c in ChildrenOf(children, id) :: c in nodes && counts[c] > 0
    ensures forall c :: Occurrences(ChildrenOf(children, id), c) > 0 <==> c in ChildrenOf(children, id)
  {
    var kids := ChildrenOf(children, id);
    forall c | c in nodes
      ensures counts[c] == Count(edges, c, nodes - (emitted + {id})) + Occurrences(kids, c)
    {
      CountSplit(edges, c, nodes - emitted, id);
      assert nodes - (emitted + {id}) == nodes - emitted - {id};
    }
    forall c
      ensures Occurrences(kids, c) > 0 <==> c in kids
      ensures c in kids ==> c in nodes
    {
      OccurrencesGrow(kids, 0, c);
      CountZero(edges, c, {id});
    }
  }

  /** The records nobody is waiting for, in whatever order `collect` lists the selection. */
  method CollectReady<K(==, !new)>(remaining: map<K, int>, collect: seq<K>) returns (ready: seq<K>)
    requires Distinct(collect) && forall c :: c in collect <==> c in remaining
    ensures Distinct(ready) && forall c :: c in ready <==> c in remaining && remaining[c] == 0
  {
    ready := [];
    for i := 0 to |collect|
      invariant Distinct(ready)
      invariant forall c :: c in ready <==> c in collect[..i] && remaining[c] == 0
    {
      if remaining[collect[i]] == 0 {
        ready := ready + [collect[i]];
      }
    }
    assert collect[..|collect|] == collect;
  }

  lemma EmptyBooks<K(!new)>(nodes: set<K>)
    ensures BooksKept(nodes, [], map c | c in nodes :: 0, map[])
  {
  }

  /** Index one record's selected parents. */
  method IndexParents<K(==, !new)>(
      nodes: set<K>, id: K, parents: seq<K>, remaining: map<K, int>, children: map<K, seq<K>>, ghost edges: seq<(K, K)>)
      returns (remaining': map<K, int>, children': map<K, seq<K>>, ghost edges': seq<(K, K)>)
    requires BooksKept(nodes, edges, remaining, children) && id in nodes
    ensures BooksKept(nodes, edges', remaining', children')
    ensures forall c, p :: (c, p) in edges' <==> (c, p) in edges || (c == id && p in nodes && p in parents)
  {
    remaining', children', edges' := remaining, children, edges;
    for k := 0 to |parents|
      invariant BooksKept(nodes, edges', remaining', children')
      invariant forall c, p :: (c, p) in edges' <==> (c, p) in edges || (c == id && p in nodes && p in parents[..k])
    {
      if parents[k] in nodes {
        BooksAddEdge(nodes, edges', remaining', children', id, parents[k]);
        remaining' := remaining'[id := remaining'[id] + 1];
        children' := children'[parents[k] := ChildrenOf(children', parents[k]) + [id]];
        edges' := edges' + [(id, parents[k])];
      }
    }
  }

  /** Index every record's selected parents, in the order `build` lists the records. */
  method IndexAll<K(==, !new)>(g: Graph<K>, nodes: set<K>, build: seq<K>)
      returns (remaining: map<K, int>, children: map<K, seq<K>>, ghost edges: seq<(K, K)>)
    requires forall c :: c in build <==> c in nodes
    ensures BooksKept(nodes, edges, remaining, children) && EdgesOf(g, nodes, edges)
  {
    remaining, children, edges := map c | c in nodes :: 0, map[], [];
    EmptyBooks(nodes);
    for i := 0 to |build|
      invariant BooksKept(nodes, edges, remaining, children)
      invariant forall c, p :: (c, p) in edges <==> c in build[..i] && p in nodes && p in Parents(g, c)
    {
      ghost var before := edges;
      remaining, children, edges := IndexParents(nodes, build[i], Parents(g, build[i]), remaining, children, edges);
      assert build[..i + 1] == build[..i] + [build[i]];
      forall c, p
        ensures (c, p) in edges <==> c in build[..i + 1] && p in nodes && p in Parents(g, c)
      {
        assert (c, p) in edges <==> (c, p) in before || (c == build[i] && p in nodes && p in Parents(g, c));
      }
    }
    assert build[..|build|] == build;
  }

  /** Index the selected parents of every record, then run the ordering loop. `build` and
      `collect` are the orders in which the record map happens to be iterated. */
  method OrderByParents<K(==, !new)>(g: Graph<K>, nodes: set<K>, build: seq<K>, collect: seq<K>, less: (K, K) -> bool)
      returns (ordered: seq<K>)
    requires StrictTotalOn(less, nodes)
    requires forall c :: c in build <==> c in nodes
    requires Distinct(collect) && forall c :: c in collect <==> c in nodes
    ensures LeastReadyOrder(g, nodes, less, ordered)
  {
    var remaining, children;
    ghost var edges;
    remaining, children, edges := IndexAll(g, nodes, build);
    var ready := CollectReady(remaining, collect);
    ordered := EmitReady(remaining, children, ready, less, g, nodes, edges);
  }
}
