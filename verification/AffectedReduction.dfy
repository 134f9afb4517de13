/**
 Reducing only the affected events: because the affected set contains every logged parent of
 its members, the causal tests and the whole local-control stage answer for those events as
 they would over the full log.
 */
module AffectedReduction {
  import opened CausalGraph
  import opened EventRecords
  import opened Usability
  import opened Authorization
  import opened Classification
  import opened CausalIndex
  import IncrementalIndex

  function Keep(records: Records, keep: set<Id>): Records {
    map id | id in records && id in keep :: records[id]
  }

  ghost predicate ParentClosed(records: Records, keep: set<Id>) {
    forall c, p | c in keep && c in records && p in records[c].event.content.parents && p in records :: p in keep
  }

  /** The index facts of a record set, whatever its events' resources are. */
  ghost predicate IsLogOf(log: Log, records: Records) {
    log.Keys == records.Keys && forall id | id in log :: log[id].parents == records[id].event.content.parents
  }

  /** The affected set that the support loops compute is closed in this sense. */
  lemma AffectedIsParentClosed(log: Log, records: Records, affected: set<Id>)
    requires IsLogOf(log, records) && SupportClosed(IncrementalIndex.RowsOf(log), log.Keys, affected)
    ensures ParentClosed(records, affected)
  {
    IncrementalIndex.SupportClosedIsParentClosed(log, affected);
  }

  lemma KeptAncestors(records: Records, keep: set<Id>, a: Id, d: Id)
    requires ParentClosed(records, keep) && d in keep
    ensures Reaches(GraphOf(Keep(records, keep)), a, d) <==> Reaches(GraphOf(records), a, d)
    ensures Reaches(GraphOf(records), a, d) && a in records ==> a in keep
  {
    var log: Log := map id | id in records :: Fact(records[id].event.content.parents, [], {});
    assert LogGraph(log) == GraphOf(records);
    assert LogGraph(IncrementalIndex.Restrict(log, keep)) == GraphOf(Keep(records, keep));
    IncrementalIndex.KeptReaches(log, keep, a, d);
    if Reaches(GraphOf(records), a, d) {
      var p :| PathBetween(GraphOf(records), p, a, d);
      IncrementalIndex.PathStaysInside(log, keep, p, 1);
      assert p[0] in Parents(GraphOf(records), p[1]);
    }
  }

  /** Every causal test on a kept event is unchanged. */
  lemma KeptAtOrBelow(records: Records, keep: set<Id>, a: Id, d: Id)
    requires ParentClosed(records, keep) && d in keep
    ensures AtOrBelow(Keep(records, keep), a, d) <==> AtOrBelow(records, a, d)
  {
    KeptAncestors(records, keep, a, d);
  }

  lemma KeptUsable(records: Records, keep: set<Id>, id: Id)
    requires ParentClosed(records, keep) && id in keep
    ensures Usable(Keep(records, keep), id) <==> Usable(records, id)
  {
    var part := Keep(records, keep);
    KeptAncestors(records, keep, id, id);
    forall a | Reaches(GraphOf(records), a, id)
      ensures IsProjected(part, a) <==> IsProjected(records, a)
      ensures IsProjected(records, a) ==> (Reaches(GraphOf(part), a, a) <==> Reaches(GraphOf(records), a, a))
    {
      KeptAncestors(records, keep, a, id);
      if a in records {
        KeptAncestors(records, keep, a, a);
      }
    }
    forall a
      ensures Reaches(GraphOf(part), a, id) <==> Reaches(GraphOf(records), a, id)
    {
      KeptAncestors(records, keep, a, id);
    }
  }

  lemma KeptParentsUsable(records: Records, keep: set<Id>, id: Id)
    requires ParentClosed(records, keep) && id in keep && id in records
    ensures ParentsUsable(Keep(records, keep), records[id].event) <==> ParentsUsable(records, records[id].event)
  {
    forall p | p in records[id].event.content.parents
      ensures Usable(Keep(records, keep), p) <==> Usable(records, p)
    {
      if p in records {
        KeptUsable(records, keep, p);
      }
    }
  }

  /** Reducing the local controls of the affected part gives each of its events the status
      that reducing the full log gives it. */
  lemma LocalControlsAgree(policy: Policy, records: Records, keep: set<Id>)
    requires ParentClosed(records, keep)
    ensures LocalControls(policy, Keep(records, keep)) == Keep(LocalControls(policy, records), keep)
  {
    var signed := WithStatuses(records, ControlSigning(policy, records));
    SigningAgrees(policy, records, keep);
    ReadinessAgrees(signed, keep);
  }

  lemma SigningAgrees(policy: Policy, records: Records, keep: set<Id>)
    ensures var part := Keep(records, keep);
            WithStatuses(part, ControlSigning(policy, part)) ==
              Keep(WithStatuses(records, ControlSigning(policy, records)), keep)
  {
  }

  lemma ReadinessAgrees(records: Records, keep: set<Id>)
    requires ParentClosed(records, keep)
    ensures var part := Keep(records, keep);
            WithStatuses(part, ControlReadiness(part)) == Keep(WithStatuses(records, ControlReadiness(records)), keep)
  {
    var part := Keep(records, keep);
    forall id | id in part
      ensures ParentsUsable(part, records[id].event) <==> ParentsUsable(records, records[id].event)
    {
      KeptParentsUsable(records, keep, id);
    }
  }
}
