/**
 The rows behind a project, read off the accepted events: which event a live row or a held
 claim comes from, and how every assignment epoch began and ended. The main results of the
 reading are gathered here.
 */
module ProjectRows {
  import opened Options
  import opened ProjectModel
  import opened ProjectInvariants
  import opened ProjectHistory
  import opened ProjectAudit
  import opened ProjectMeaning
  import opened ProjectResources

  /** A live row was added by the event that last introduced its resource. */
  ghost predicate RowsTold(part: seq<Event>, rows: seq<ResourceRow>) {
    forall k | 0 <= k < |rows| && IsLive(rows[k]) :: StampedBy(
      LastAbout(part, Introduction(rows[k].resource.id)), rows[k].addedBy, rows[k].createdAt)
  }

  /** A held claim was acquired by the last event that introduced the resource or opened the
      project. */
  ghost predicate ClaimsTold(part: seq<Event>, claims: seq<ClaimRow>) {
    forall k | 0 <= k < |claims| && Held(claims[k]) :: StampedBy(
      LastAbout(part, Claiming(claims[k].resourceId)), claims[k].acquiredBy, claims[k].acquiredAt)
  }

  predicate StampedBy(e: Option<Event>, id: string, at: int) {
    e.Some? && (e.value.id, e.value.createdAt) == (id, at)
  }

  lemma NewRowsStamped(s: Snapshot, e: Event)
    requires ApplyData(s, e).Accept?
    ensures var t := ApplyData(s, e).next;
            && (forall k | |s.resources| <= k < |t.resources| ::
                  && (t.resources[k].addedBy, t.resources[k].createdAt) == (e.id, e.createdAt)
                  && Introduces(e.data, t.resources[k].resource.id))
  {
    if !IsResourceData(e.data) {
      DataFrame(s, e);
    }
  }

  lemma NewClaimsStamped(s: Snapshot, e: Event)
    requires ApplyData(s, e).Accept?
    ensures var t := ApplyData(s, e).next;
            && (forall k | |s.claims| <= k < |t.claims| ::
                  && (t.claims[k].acquiredBy, t.claims[k].acquiredAt) == (e.id, e.createdAt)
                  && About(e.data, Claiming(t.claims[k].resourceId)))
  {
    if !IsResourceData(e.data) && !e.data.Opened? && !e.data.ClosedDown? {
      DataFrame(s, e);
    }
  }

  /** What is current, live or held is not introduced again. */
  lemma NotIntroducedAgain(s: Snapshot, e: Event, id: string)
    requires Sound(s) && ApplyData(s, e).Accept? && id in ResourceIds(s.project.resources)
    ensures !Introduces(e.data, id)
  {
    DataFrame(s, e);
    var i := ResourcesChange(s, e);
  }

  lemma RowsData(part: seq<Event>, s: Snapshot, e: Event)
    requires Sound(s) && RowsTold(part, s.resources) && ApplyData(s, e).Accept?
    requires ResourcesExtend(s.resources, ApplyData(s, e).next.resources)
    ensures RowsTold(part + [e], ApplyData(s, e).next.resources)
  {
    var rows := ApplyData(s, e).next.resources;
    NewRowsStamped(s, e);
    forall k | 0 <= k < |rows| && IsLive(rows[k])
      ensures StampedBy(LastAbout(part + [e], Introduction(rows[k].resource.id)), rows[k].addedBy, rows[k].createdAt)
    {
      LastStep(part, e, Introduction(rows[k].resource.id));
      if k < |s.resources| {
        assert IsLive(s.resources[k]) && s.resources[k].resource in s.project.resources;
        NotIntroducedAgain(s, e, rows[k].resource.id);
      }
    }
  }

  lemma HeldIsNotOpened(s: Snapshot, e: Event, k: nat)
    requires Sound(s) && ApplyData(s, e).Accept? && k < |s.claims| && Held(s.claims[k])
    ensures !About(e.data, Claiming(s.claims[k].resourceId))
  {
    NotIntroducedAgain(s, e, s.claims[k].resourceId);
  }

  lemma ClaimsData(part: seq<Event>, s: Snapshot, e: Event)
    requires Sound(s) && ClaimsTold(part, s.claims) && ApplyData(s, e).Accept?
    requires ClaimsExtend(s.claims, ApplyData(s, e).next.claims)
    ensures ClaimsTold(part + [e], ApplyData(s, e).next.claims)
  {
    var claims := ApplyData(s, e).next.claims;
    NewClaimsStamped(s, e);
    forall k | 0 <= k < |claims| && Held(claims[k])
      ensures StampedBy(
                LastAbout(part + [e], Claiming(claims[k].resourceId)), claims[k].acquiredBy, claims[k].acquiredAt)
    {
      LastStep(part, e, Claiming(claims[k].resourceId));
      if k < |s.claims| {
        assert Held(s.claims[k]);
        HeldIsNotOpened(s, e, k);
      }
    }
  }

  lemma CreatedRows(e: Event)
    requires e.data.Created?
    ensures RowsTold([e], NewRows(NewResources(e.data.initial, e.home), e))
  {
    var rows := NewRows(NewResources(e.data.initial, e.home), e);
    forall k | 0 <= k < |rows|
      ensures StampedBy(LastAbout([e], Introduction(rows[k].resource.id)), rows[k].addedBy, rows[k].createdAt)
    {
      assert e.data.initial[k].id == rows[k].resource.id;
    }
  }

  lemma CreatedClaims(e: Event)
    requires e.data.Created?
    ensures ClaimsTold([e], ClaimAll(NewResources(e.data.initial, e.home), e))
  {
    var claims := ClaimAll(NewResources(e.data.initial, e.home), e);
    forall k | 0 <= k < |claims|
      ensures StampedBy(LastAbout([e], Claiming(claims[k].resourceId)), claims[k].acquiredBy, claims[k].acquiredAt)
    {
      assert e.data.initial[k].id == claims[k].resourceId;
    }
  }

  lemma RowsStep(part: seq<Event>, s: Snapshot, e: Event)
    requires (s == EMPTY && part == []) || (Sound(s) && RowsTold(part, s.resources) && ClaimsTold(part, s.claims))
    requires Apply(s, e).Accept? && Extends(s, Apply(s, e).next)
    ensures RowsTold(part + [e], Apply(s, e).next.resources) && ClaimsTold(part + [e], Apply(s, e).next.claims)
  {
    if s == EMPTY {
      CreatedResources(e);
      CreatedRows(e);
      CreatedClaims(e);
      assert part + [e] == [e];
    } else {
      RowsData(part, s, e);
      ClaimsData(part, s, e);
    }
  }
}
