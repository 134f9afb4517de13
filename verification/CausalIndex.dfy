/**
 The rebuildable dependency index beside the event log: parent edges, authority
 dependencies, unresolved waiters, resource memberships, and per-resource causal frontiers
 and support rows. The full rebuild is the oracle for the incremental path.
 */
module CausalIndex {
  import opened CausalGraph
  import opened EventRecords
  import opened Sorting

  datatype Resource = Resource(kind: string, id: string)

  const SUPPORT_SUFFIX: string := "-support"

  /** Resources that only express a dependency; they carry no frontier. */
  predicate DependencyOnly(r: Resource) {
    |r.kind| >= |SUPPORT_SUFFIX| && r.kind[|r.kind| - |SUPPORT_SUFFIX|..] == SUPPORT_SUFFIX
  }

  /** What the index reads of one event. */
  datatype Fact = Fact(parents: seq<Id>, authorities: seq<Id>, resources: set<Resource>)

  type Log = map<Id, Fact>

  function LogGraph(log: Log): Graph<Id> {
    map id | id in log :: log[id].parents
  }

  ghost function Members(log: Log, r: Resource): set<Id> {
    set id | id in log && r in log[id].resources
  }

  // ------------------------------------------------------- what a full rebuild writes

  ghost function EdgeRows(log: Log): set<(Id, Id)> {
    set c, p | c in log && p in log[c].parents :: (c, p)
  }

  ghost function AuthorityRows(log: Log): set<(Id, Id)> {
    set e, a | e in log && a in log[e].authorities :: (e, a)
  }

  ghost function WaiterRows(log: Log): set<(Id, Id)> {
    set c, p | c in log && p in log[c].parents && p !in log :: (p, c)
  }

  ghost function ResourceRows(log: Log): set<(Id, Resource)> {
    set id, r | id in log && r in log[id].resources :: (id, r)
  }

  // ---------------------------------------------------------------- descendant search

  /** `children` lists, for every parent, the events that name it. */
  ghost predicate IsInverse(children: Graph<Id>, g: Graph<Id>) {
    forall c, p :: c in Parents(children, p) <==> p in Parents(g, c)
  }

  function Reversed<T>(s: seq<T>): (r: seq<T>)
    ensures |r| == |s| && forall i | 0 <= i < |s| :: r[i] == s[|s| - 1 - i]
  {
    seq(|s|, i requires 0 <= i < |s| => s[|s| - 1 - i])
  }

  lemma ReverseReaches(children: Graph<Id>, g: Graph<Id>, x: Id, y: Id)
    requires IsInverse(children, g) || IsInverse(g, children)
    requires Reaches(g, x, y)
    ensures Reaches(children, y, x)
  {
    var p :| PathBetween(g, p, x, y);
    var q := Reversed(p);
    forall i | 0 <= i < |q| - 1
      ensures q[i] in Parents(children, q[i + 1])
    {
      assert p[|p| - 2 - i] in Parents(g, p[|p| - 1 - i]);
    }
    assert PathBetween(children, q, y, x);
  }

  /** Searching forward over the children index finds exactly the causal descendants that the
      backward search over parents finds, on cyclic and incomplete logs too. */
  lemma ForwardMeetsBackward(children: Graph<Id>, g: Graph<Id>, x: Id, y: Id)
    requires IsInverse(children, g)
    ensures Reaches(children, y, x) <==> Reaches(g, x, y)
  {
    if Reaches(g, x, y) {
      ReverseReaches(children, g, x, y);
    }
    if Reaches(children, y, x) {
      ReverseReaches(g, children, y, x);
    }
  }

  /** The breadth-first search for another member strictly below `id`. */
  method HasResourceDescendant(id: Id, members: set<Id>, children: Graph<Id>) returns (found: bool)
    ensures found <==> exists y :: y in members && y != id && Reaches(children, y, id)
  {
    var seen := {id};
    var queue := Parents(children, id);
    forall y | y in queue
      ensures Reaches(children, y, id)
    {
      EdgeReaches(children, y, id);
    }
    while |queue| > 0
      invariant id in seen && seen - {id} <= Listed(children)
      invariant forall y | y in queue :: y in Listed(children) && Reaches(children, y, id)
      invariant forall y | y in seen :: y == id || y !in members
      invariant forall x, y | x in seen && y in Parents(children, x) :: y in seen || y in queue
      decreases Listed(children) - seen, |queue|
    {
      var current := queue[0];
      assert queue == [current] + queue[1..];
      ghost var before := queue;
      queue := queue[1..];
      assert forall y | y in before :: y == current || y in queue;
      if current !in seen {
        seen := seen + {current};
        if current in members {
          return true;
        }
        forall y | y in Parents(children, current)
          ensures Reaches(children, y, id)
        {
          EdgeReaches(children, y, current);
          ReachesTransitive(children, y, current, id);
        }
        queue := queue + Parents(children, current);
      }
    }
    forall y | y in members && Reaches(children, y, id)
      ensures y == id
    {
      var p :| PathBetween(children, p, y, id);
      UpwardClosed(children, seen, p, 0);
    }
    return false;
  }

  // -------------------------------------------------------------- frontiers, as written

  method BuildChildren(log: Log, order: seq<Id>) returns (children: Graph<Id>)
    requires IsOrderOf(order, log)
    ensures IsInverse(children, LogGraph(log))
  {
    children := map[];
    for i := 0 to |order|
      invariant forall c, p :: c in Parents(children, p) <==> c in order[..i] && p in Parents(LogGraph(log), c)
    {
      children := AddChild(children, order[i], log[order[i]].parents);
      assert order[..i + 1] == order[..i] + [order[i]];
    }
    assert order[..|order|] == order;
  }

  method AddChild(children: Graph<Id>, id: Id, parents: seq<Id>) returns (more: Graph<Id>)
    ensures forall c, p :: c in Parents(more, p) <==> c in Parents(children, p) || (c == id && p in parents)
  {
    more := children;
    for k := 0 to |parents|
      invariant forall c, p :: c in Parents(more, p) <==> c in Parents(children, p) || (c == id && p in parents[..k])
    {
      more := more[parents[k] := Parents(more, parents[k]) + [id]];
    }
    assert parents[..|parents|] == parents;
  }

  /** The frontier of one resource: the members with no other member strictly below them. */
  method FrontierOf(members: set<Id>, children: Graph<Id>, ids: seq<Id>, ghost g: Graph<Id>) returns (frontier: set<Id>)
    requires IsInverse(children, g) && Elements(ids) == members
    ensures frontier == MaximaOf(g, members)
  {
    frontier := {};
    for i := 0 to |ids|
      invariant forall x :: x in frontier <==> x in ids[..i] && x in MaximaOf(g, members)
    {
      assert ids[i] in Elements(ids);
      var below := HasResourceDescendant(ids[i], members, children);
      forall y
        ensures Reaches(children, y, ids[i]) <==> Reaches(g, ids[i], y)
      {
        ForwardMeetsBackward(children, g, ids[i], y);
      }
      if !below {
        frontier := frontier + {ids[i]};
      }
    }
    assert ids[..|ids|] == ids;
    assert forall x :: x in ids <==> x in Elements(ids);
  }

  /** The events of each frontier-bearing resource. */
  method GroupByResource(log: Log, order: seq<Id>) returns (groups: map<Resource, seq<Id>>)
    requires IsOrderOf(order, log)
    ensures forall r :: r in groups <==> !DependencyOnly(r) && Members(log, r) != {}
    ensures forall r | r in groups :: Elements(groups[r]) == Members(log, r)
  {
    groups := map[];
    for i := 0 to |order|
      invariant forall r | r in groups :: groups[r] != [] && !DependencyOnly(r)
      invariant forall r, x | r in groups && x in groups[r] :: x in Members(log, r)
      invariant forall r, x | x in order[..i] && x in Members(log, r) && !DependencyOnly(r) :: r in groups && x in groups[r]
    {
      groups := AddToGroups(groups, order[i], log[order[i]].resources);
      assert order[..i + 1] == order[..i] + [order[i]];
    }
    assert order[..|order|] == order;
    forall r | r in groups
      ensures Members(log, r) != {}
    {
      assert groups[r][0] in Members(log, r);
    }
    forall r | !DependencyOnly(r) && Members(log, r) != {}
      ensures r in groups
    {
      var x :| x in Members(log, r);
    }
  }

  method AddToGroups(groups: map<Resource, seq<Id>>, id: Id, resources: set<Resource>)
      returns (more: map<Resource, seq<Id>>)
    ensures more.Keys == groups.Keys + set r | r in resources && !DependencyOnly(r)
    ensures forall r | r in more :: more[r] ==
              (if r in groups then groups[r] else []) + (if r in resources && !DependencyOnly(r) then [id] else [])
  {
    more := groups;
    var left := resources;
    while left != {}
      invariant left <= resources
      invariant more.Keys == groups.Keys + set r | r in resources - left && !DependencyOnly(r)
      invariant forall r | r in more :: more[r] ==
                  (if r in groups then groups[r] else []) +
                  (if r in resources - left && !DependencyOnly(r) then [id] else [])
      decreases left
    {
      var r :| r in left;
      left := left - {r};
      if !DependencyOnly(r) {
        more := more[r := (if r in more then more[r] else []) + [id]];
      }
    }
  }

  // ------------------------------------------------------------------ impact closures

  /** The rows the closures are computed from. */
  datatype Rows = Rows(
    edges: set<(Id, Id)>, authority: set<(Id, Id)>, waiters: set<(Id, Id)>, resources: set<(Id, Resource)>)

  function Dependants(rows: set<(Id, Id)>, s: set<Id>): set<Id> {
    set row | row in rows && row.1 in s :: row.0
  }

  function Sharers(resources: set<(Id, Resource)>, s: set<Id>): set<Id> {
    set a, b | a in resources && b in resources && a.0 in s && a.1 == b.1 && !DependencyOnly(a.1) :: b.0
  }

  function Providers(resources: set<(Id, Resource)>, s: set<Id>, need: string, provided: string): set<Id> {
    set a, b | a in resources && b in resources && a.0 in s &&
               a.1.kind == need && b.1.kind == provided && a.1.id == b.1.id :: b.0
  }

  function PresentParents(edges: set<(Id, Id)>, s: set<Id>, present: set<Id>): set<Id> {
    set row | row in edges && row.0 in s && row.1 in present :: row.1
  }

  function Waiting(waiters: set<(Id, Id)>, id: Id): set<Id> {
    set row | row in waiters && row.0 == id :: row.1
  }

  /** Closed under children, authority dependants and shared non-support resources. */
  ghost predicate ImpactClosed(rows: Rows, s: set<Id>) {
    Dependants(rows.edges, s) <= s && Dependants(rows.authority, s) <= s && Sharers(rows.resources, s) <= s
  }

  ghost predicate Seeded(rows: Rows, seeds: seq<Id>, s: set<Id>) {
    forall id | id in seeds :: id in s && Waiting(rows.waiters, id) <= s
  }

  /** Closed under account and installation providers and under parents in the log. */
  ghost predicate SupportClosed(rows: Rows, present: set<Id>, s: set<Id>) {
    && Providers(rows.resources, s, "account-support", "account") <= s
    && Providers(rows.resources, s, "installation-support", "installation") <= s
    && PresentParents(rows.edges, s, present) <= s
  }

  function IndexedIds(rows: Rows): set<Id> {
    (set row | row in rows.edges :: row.0) + (set row | row in rows.authority :: row.0) +
    (set row | row in rows.resources :: row.0)
  }

  /** The impact loops end in the least set that holds the seeds and their waiters and is
      closed under the three propagation rules. */
  method Impacted(rows: Rows, seeds: seq<Id>) returns (impacted: set<Id>)
    ensures Seeded(rows, seeds, impacted) && ImpactClosed(rows, impacted)
    ensures forall s | Seeded(rows, seeds, s) && ImpactClosed(rows, s) :: impacted <= s
  {
    impacted := {};
    for i := 0 to |seeds|
      invariant Seeded(rows, seeds[..i], impacted)
      invariant forall s | Seeded(rows, seeds, s) :: impacted <= s
    {
      impacted := impacted + {seeds[i]} + Waiting(rows.waiters, seeds[i]);
    }
    assert seeds[..|seeds|] == seeds;
    var changed := true;
    while changed
      invariant Seeded(rows, seeds, impacted)
      invariant forall s | Seeded(rows, seeds, s) && ImpactClosed(rows, s) :: impacted <= s
      invariant !changed ==> ImpactClosed(rows, impacted)
      decreases IndexedIds(rows) - impacted, changed
    {
      var next := ImpactRound(rows, impacted);
      changed := next != impacted;
      impacted := next;
    }
  }

  lemma RoomShrinks(s: set<Id>, next: set<Id>, room: set<Id>)
    requires s <= next <= s + room && next != s
    ensures room - next < room - s
  {
    assert exists x :: x in next && x !in s;
  }

  lemma DependantsGrow(edges: set<(Id, Id)>, s: set<Id>, t: set<Id>)
    requires s <= t
    ensures Dependants(edges, s) <= Dependants(edges, t)
  {
  }

  lemma SharersGrow(resources: set<(Id, Resource)>, s: set<Id>, t: set<Id>)
    requires s <= t
    ensures Sharers(resources, s) <= Sharers(resources, t)
  {
  }

  /** The three impact statements, run once each. */
  method ImpactRound(rows: Rows, s: set<Id>) returns (next: set<Id>)
    ensures s <= next <= s + IndexedIds(rows)
    ensures forall t | s <= t && ImpactClosed(rows, t) :: next <= t
    ensures next == s ==> ImpactClosed(rows, s)
    ensures next != s ==> IndexedIds(rows) - next < IndexedIds(rows) - s
  {
    var children := s + Dependants(rows.edges, s);
    var dependants := children + Dependants(rows.authority, children);
    next := dependants + Sharers(rows.resources, dependants);
    forall t | s <= t && ImpactClosed(rows, t)
      ensures next <= t
    {
      DependantsGrow(rows.edges, s, t);
      DependantsGrow(rows.authority, children, t);
      SharersGrow(rows.resources, dependants, t);
    }
    if next != s {
      RoomShrinks(s, next, IndexedIds(rows));
    }
  }

  /** The support loops end in the least closed set above the impacted events. */
  method Affected(rows: Rows, impacted: set<Id>, present: set<Id>) returns (affected: set<Id>)
    ensures impacted <= affected && SupportClosed(rows, present, affected)
    ensures forall s | impacted <= s && SupportClosed(rows, present, s) :: affected <= s
  {
    affected := impacted;
    var changed := true;
    while changed
      invariant impacted <= affected
      invariant forall s | impacted <= s && SupportClosed(rows, present, s) :: affected <= s
      invariant !changed ==> SupportClosed(rows, present, affected)
      decreases IndexedIds(rows) + present - affected, changed
    {
      var next := SupportRound(rows, present, affected);
      changed := next != affected;
      affected := next;
    }
  }

  lemma ProvidersGrow(rows: Rows, s: set<Id>, t: set<Id>, need: string, provided: string)
    requires s <= t
    ensures Providers(rows.resources, s, need, provided) <= Providers(rows.resources, t, need, provided)
    ensures Providers(rows.resources, s, need, provided) <= IndexedIds(rows)
  {
  }

  /** The three support statements, run once each. */
  method SupportRound(rows: Rows, present: set<Id>, s: set<Id>) returns (next: set<Id>)
    ensures s <= next <= s + IndexedIds(rows) + present
    ensures forall t | s <= t && SupportClosed(rows, present, t) :: next <= t
    ensures next == s ==> SupportClosed(rows, present, s)
    ensures next != s ==> IndexedIds(rows) + present - next < IndexedIds(rows) + present - s
  {
    var accounts := ProvidersRound(rows, s, "account-support", "account");
    var installations := ProvidersRound(rows, accounts, "installation-support", "installation");
    var parents := PresentParents(rows.edges, installations, present);
    next := installations + parents;
    forall t | s <= t && SupportClosed(rows, present, t)
      ensures next <= t
    {
      assert PresentParents(rows.edges, installations, present) <= PresentParents(rows.edges, t, present);
    }
    if next != s {
      RoomShrinks(s, next, IndexedIds(rows) + present);
    }
  }

  method ProvidersRound(rows: Rows, s: set<Id>, need: string, provided: string) returns (next: set<Id>)
    ensures s <= next <= s + IndexedIds(rows)
    ensures forall t | s <= t && Providers(rows.resources, t, need, provided) <= t :: next <= t
    ensures next == s ==> Providers(rows.resources, s, need, provided) <= s
  {
    next := s + Providers(rows.resources, s, need, provided);
    forall t | s <= t
      ensures Providers(rows.resources, s, need, provided) <= Providers(rows.resources, t, need, provided)
    {
      ProvidersGrow(rows, s, t, need, provided);
    }
    ProvidersGrow(rows, s, s, need, provided);
  }
}
