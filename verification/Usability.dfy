/**
 The memoised usability walk: an event is causally usable when it and everything
 above it is present and projected and no cycle is met on the way up.
 */
module Usability {
  import opened CausalGraph
  import opened EventRecords

  ghost predicate Usable(records: Records, id: Id) {
    var g := GraphOf(records);
    && IsProjected(records, id)
    && !Reaches(g, id, id)
    && forall a | Reaches(g, a, id) :: IsProjected(records, a) && !Reaches(g, a, a)
  }

  ghost predicate ParentsUsable(records: Records, e: Event) {
    forall p | p in e.content.parents :: Usable(records, p)
  }

  lemma UsableAncestor(records: Records, a: Id, id: Id)
    requires Usable(records, id) && Reaches(GraphOf(records), a, id)
    ensures Usable(records, a)
  {
    var g := GraphOf(records);
    forall b | Reaches(g, b, a)
      ensures IsProjected(records, b) && !Reaches(g, b, b)
    {
      ReachesTransitive(g, b, a, id);
    }
  }

  /** Usability unfolds one parent level at a time, cycles included. */
  lemma UsableUnfolds(records: Records, id: Id)
    ensures Usable(records, id) <==> IsProjected(records, id) && ParentsUsable(records, records[id].event)
  {
    var g := GraphOf(records);
    if Usable(records, id) {
      forall p | p in records[id].event.content.parents
        ensures Usable(records, p)
      {
        EdgeReaches(g, p, id);
        UsableAncestor(records, p, id);
      }
    }
    if IsProjected(records, id) && ParentsUsable(records, records[id].event) {
      forall a | Reaches(g, a, id)
        ensures Usable(records, a)
      {
        var p := LastEdge(g, a, id);
        if a != p {
          UsableAncestor(records, a, p);
        }
      }
    }
  }

  /** Statuses that change only on unusable records, and never to projected, leave
      usability as it was. */
  lemma UsableStable(before: Records, after: Records, id: Id)
    requires SameEvents(before, after)
    requires forall x | x in before :: after[x].status == before[x].status ||
                                       (!Usable(before, x) && after[x].status != Projected)
    ensures Usable(before, id) <==> Usable(after, id)
  {
    SameGraph(before, after);
    var g := GraphOf(before);
    if Usable(before, id) {
      forall a | Reaches(g, a, id)
        ensures Usable(before, a)
      {
        UsableAncestor(before, a, id);
      }
    }
  }

  /** The memo and visiting maps that the walk writes. The memo outlives one query. */
  class Walk {
    var memo: map<Id, bool>
    var visiting: set<Id>

    constructor ()
      ensures memo == map[] && visiting == {}
    {
      memo, visiting := map[], {};
    }

    ghost predicate Sound(records: Records)
      reads this
    {
      forall x | x in memo :: memo[x] <==> Usable(records, x)
    }

    /** `stack` holds the events whose walk is still open: all lie at or below `id`. */
    ghost predicate Open(records: Records, id: Id, stack: set<Id>)
      reads this
    {
      && stack <= visiting * records.Keys
      && (forall x | x in visiting :: x in stack || (x in memo && !memo[x]))
      && forall x | x in stack :: Reaches(GraphOf(records), id, x)
    }

    method CausalEventUsable(records: Records, id: Id, ghost stack: set<Id>) returns (usable: bool)
      requires Sound(records) && Open(records, id, stack)
      modifies this
      ensures usable <==> Usable(records, id)
      ensures Sound(records) && Open(records, id, stack)
      decreases records.Keys - stack
    {
      UsableUnfolds(records, id);
      if id in memo {
        return memo[id];
      }
      if id in visiting {
        return false;
      }
      visiting := visiting + {id};
      if !IsProjected(records, id) {
        memo := memo[id := false];
        return false;
      }
      var parents := records[id].event.content.parents;
      ghost var inner := stack + {id};
      for i := 0 to |parents|
        invariant Sound(records)
        invariant stack <= visiting && id in visiting
        invariant forall x | x in visiting :: x in inner || (x in memo && !memo[x])
        invariant forall p | p in parents[..i] :: Usable(records, p)
      {
        forall x | x in inner
          ensures Reaches(GraphOf(records), parents[i], x)
        {
          EdgeReaches(GraphOf(records), parents[i], id);
          if x != id {
            ReachesTransitive(GraphOf(records), parents[i], id, x);
          }
        }
        var ok := CausalEventUsable(records, parents[i], inner);
        if !ok {
          memo := memo[id := false];
          return false;
        }
      }
      assert parents[..|parents|] == parents;
      visiting := visiting - {id};
      memo := memo[id := true];
      return true;
    }

    method AllParentsUsable(records: Records, e: Event) returns (usable: bool)
      requires Sound(records)
      modifies this
      ensures usable <==> ParentsUsable(records, e)
      ensures Sound(records)
    {
      for i := 0 to |e.content.parents|
        invariant Sound(records)
        invariant forall p | p in e.content.parents[..i] :: Usable(records, p)
      {
        visiting := {};
        var ok := CausalEventUsable(records, e.content.parents[i], {});
        if !ok {
          return false;
        }
      }
      return true;
    }
  }
}
