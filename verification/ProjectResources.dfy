/**
 What a project's resources, rows and claims say, read off the accepted events alone.
 */
module ProjectResources {
  import opened Options
  import opened ProjectModel
  import opened ProjectInvariants
  import opened ProjectHistory
  import opened ProjectMeaning

  // ------------------------------------------------------------- what the list goes through

  /** How an accepted event changes the list of current resources; `i` is the place it
      changes, if it changes one. */
  ghost predicate Changed(before: seq<Resource>, home: string, d: Data, i: nat, after: seq<Resource>) {
    match d
    case ResourceAdded(r, _) => after == before + [NewResource(r, home)] && r.id !in ResourceIds(before)
    case ResourceRemoved(id) => i < |before| && before[i].id == id && after == RemoveAt(before, i)
    case ResourceReplaced(oldId, newId, _, _, _, _, _) =>
      && i < |before| && before[i].id == oldId && newId !in ResourceIds(before)
      && after == before[i := Replacement(d, home)]
    case ResourceHealth(id, health, details, checkedAt) =>
      && i < |before| && before[i].id == id
      && after == before[i := before[i].(health := health, details := details, checkedAt := checkedAt)]
    case _ => after == before
  }

  function Replacement(d: Data, home: string): Resource
    requires d.ResourceReplaced?
  {
    Resource(d.newId, "path", home, d.newDisplay, d.newCanonical, d.newHealth, d.newDetails, d.newCheckedAt)
  }

  lemma IdIsThere(resources: seq<Resource>, id: string)
    ensures FindResource(resources, id) >= 0 <==> id in ResourceIds(resources)
  {
    if FindResource(resources, id) >= 0 {
      assert resources[FindResource(resources, id)] in resources;
    }
  }

  lemma ResourcesChange(s: Snapshot, e: Event) returns (i: nat)
    requires Sound(s) && ApplyData(s, e).Accept?
    ensures Changed(s.project.resources, s.project.home, e.data, i, ApplyData(s, e).next.project.resources)
    ensures ApplyData(s, e).next.project.home == s.project.home
  {
    DataFrame(s, e);
    i := 0;
    match e.data
    case ResourceAdded(r, _) => IdIsThere(s.project.resources, r.id);
    case ResourceRemoved(id) => i := FindResource(s.project.resources, id);
    case ResourceReplaced(oldId, newId, _, _, _, _, _) =>
      i := FindResource(s.project.resources, oldId);
      IdIsThere(s.project.resources, newId);
    case ResourceHealth(id, _, _, _) => i := FindResource(s.project.resources, id);
    case _ =>
  }

  // ---------------------------------------------------------------------- who is current

  /** A resource is current exactly when the last event that introduced or retired its
      identifier introduced it. */
  ghost predicate PresenceTold(part: seq<Event>, ids: set<string>) {
    forall id :: id in ids <==>
      LastAbout(part, Presence(id)).Some? && Introduces(LastAbout(part, Presence(id)).value.data, id)
  }

  ghost predicate DistinctIds(resources: seq<Resource>) {
    forall i, j | 0 <= i < j < |resources| :: resources[i].id != resources[j].id
  }

  lemma IdsAfter(before: seq<Resource>, home: string, d: Data, i: nat, after: seq<Resource>, id: string)
    requires Changed(before, home, d, i, after) && DistinctIds(before) && !d.Created?
    ensures id in ResourceIds(after) <==> Introduces(d, id) || (id in ResourceIds(before) && !Retires(d, id))
  {
    match d
    case ResourceAdded(r, _) =>
      assert NewResource(r, home) in after && forall x | x in before :: x in after;
    case ResourceRemoved(_) =>
      forall x | x in before && x != before[i]
        ensures x in after
      {
        var k :| 0 <= k < |before| && before[k] == x;
        assert x == if k < i then after[k] else after[k - 1];
      }
      assert forall x | x in after :: x in before && x.id != before[i].id;
    case ResourceReplaced(_, _, _, _, _, _, _) => IdsSet(before, i, after);
    case ResourceHealth(_, _, _, _) => IdsSet(before, i, after);
    case _ =>
  }

  lemma IdsSet(before: seq<Resource>, i: nat, after: seq<Resource>)
    requires i < |before| == |after| && DistinctIds(before) && after == before[i := after[i]]
    ensures ResourceIds(after) == ResourceIds(before) - {before[i].id} + {after[i].id}
  {
    assert after[i] in after && before[i] in before;
    forall x | x in before && x != before[i]
      ensures x in after
    {
      var k :| 0 <= k < |before| && before[k] == x;
      assert after[k] == x;
    }
    forall x | x in after && x != after[i]
      ensures x in before && x.id != before[i].id
    {
      var k :| 0 <= k < |after| && after[k] == x;
      assert before[k] == x;
    }
  }

  lemma PresenceData(part: seq<Event>, s: Snapshot, e: Event)
    requires Sound(s) && PresenceTold(part, ResourceIds(s.project.resources)) && ApplyData(s, e).Accept?
    ensures PresenceTold(part + [e], ResourceIds(ApplyData(s, e).next.project.resources))
  {
    var t := ApplyData(s, e).next;
    var i := ResourcesChange(s, e);
    DataFrame(s, e);
    forall id
      ensures id in ResourceIds(t.project.resources) <==>
              && LastAbout(part + [e], Presence(id)).Some?
              && Introduces(LastAbout(part + [e], Presence(id)).value.data, id)
    {
      LastStep(part, e, Presence(id));
      IdsAfter(s.project.resources, s.project.home, e.data, i, t.project.resources, id);
    }
  }

  function PrimaryFrom(initial: seq<CreatedResource>, path: int): string {
    if 0 <= path < |initial| then initial[path].id else ""
  }

  lemma CreatedResources(e: Event)
    requires e.data.Created? && Apply(EMPTY, e).Accept?
    ensures Apply(EMPTY, e).next.project.resources == NewResources(e.data.initial, e.home)
    ensures Apply(EMPTY, e).next.project.home == e.home
    ensures Apply(EMPTY, e).next.project.primary == PrimaryFrom(e.data.initial, e.data.primaryPath)
    ensures Apply(EMPTY, e).next.resources == NewRows(NewResources(e.data.initial, e.home), e)
    ensures Apply(EMPTY, e).next.claims == if e.data.open then ClaimAll(NewResources(e.data.initial, e.home), e) else []
  {
  }

  lemma CreatedIds(e: Event, id: string)
    requires e.data.Created?
    ensures id in ResourceIds(NewResources(e.data.initial, e.home)) <==> Introduces(e.data, id)
  {
    var rs := NewResources(e.data.initial, e.home);
    if Introduces(e.data, id) {
      var i :| 0 <= i < |e.data.initial| && e.data.initial[i].id == id;
      assert rs[i] in rs;
    }
  }

  lemma PresenceCreated(e: Event)
    requires e.data.Created?
    ensures PresenceTold([e], ResourceIds(NewResources(e.data.initial, e.home)))
  {
    forall id
      ensures id in ResourceIds(NewResources(e.data.initial, e.home)) <==>
              LastAbout([e], Presence(id)).Some? && Introduces(LastAbout([e], Presence(id)).value.data, id)
    {
      CreatedIds(e, id);
    }
  }

  lemma PresenceStep(part: seq<Event>, s: Snapshot, e: Event)
    requires (s == EMPTY && part == []) || (Sound(s) && PresenceTold(part, ResourceIds(s.project.resources)))
    requires Apply(s, e).Accept?
    ensures PresenceTold(part + [e], ResourceIds(Apply(s, e).next.project.resources))
  {
    if s == EMPTY {
      CreatedResources(e);
      PresenceCreated(e);
      assert part + [e] == [e];
    } else {
      PresenceData(part, s, e);
    }
  }

  // ------------------------------------------------------------------------ what they say

  /** The event gives the resource its health. */
  predicate Shows(d: Data, r: Resource) {
    match d
    case Created(_, _, _, _, _, _, initial) =>
      exists i :: 0 <= i < |initial| && initial[i].id == r.id &&
                  (initial[i].health, initial[i].details, initial[i].checkedAt) == (r.health, r.details, r.checkedAt)
    case ResourceAdded(x, _) => (x.id, x.health, x.details, x.checkedAt) == (r.id, r.health, r.details, r.checkedAt)
    case ResourceReplaced(_, id, _, _, health, details, at) =>
      (id, health, details, at) == (r.id, r.health, r.details, r.checkedAt)
    case ResourceHealth(id, health, details, at) =>
      (id, health, details, at) == (r.id, r.health, r.details, r.checkedAt)
    case _ => false
  }

  /** The event introduces the resource under its kind and paths. */
  predicate Describes(d: Data, r: Resource) {
    match d
    case Created(_, _, _, _, _, _, initial) =>
      exists i :: 0 <= i < |initial| && initial[i].id == r.id &&
                  (initial[i].kind, initial[i].display, initial[i].canonical) == (r.kind, r.display, r.canonical)
    case ResourceAdded(x, _) => (x.id, x.kind, x.display, x.canonical) == (r.id, r.kind, r.display, r.canonical)
    case ResourceReplaced(_, id, display, canonical, _, _, _) =>
      (id, "path", display, canonical) == (r.id, r.kind, r.display, r.canonical)
    case _ => false
  }

  /** The resource's health is that of its last introduction or check; its kind and paths are
      those of its last introduction. */
  ghost predicate ResourceTold(part: seq<Event>, home: string, r: Resource) {
    var checked, introduced := LastAbout(part, Health(r.id)), LastAbout(part, Introduction(r.id));
    && checked.Some? && Shows(checked.value.data, r)
    && introduced.Some? && Describes(introduced.value.data, r)
    && r.home == home
  }

  ghost predicate ResourcesTold(part: seq<Event>, home: string, resources: seq<Resource>) {
    forall r | r in resources :: ResourceTold(part, home, r)
  }

  lemma Untouched(part: seq<Event>, e: Event, home: string, r: Resource)
    requires ResourceTold(part, home, r) && !About(e.data, Health(r.id))
    ensures ResourceTold(part + [e], home, r)
  {
    LastStep(part, e, Health(r.id));
    LastStep(part, e, Introduction(r.id));
  }

  lemma JustIntroduced(part: seq<Event>, e: Event, home: string, r: Resource)
    requires Introduces(e.data, r.id) && Shows(e.data, r) && Describes(e.data, r) && r.home == home
    ensures ResourceTold(part + [e], home, r)
  {
    LastStep(part, e, Health(r.id));
    LastStep(part, e, Introduction(r.id));
  }

  lemma JustChecked(part: seq<Event>, e: Event, home: string, was: Resource, r: Resource)
    requires ResourceTold(part, home, was) && e.data.ResourceHealth? && Shows(e.data, r)
    requires r == was.(health := r.health, details := r.details, checkedAt := r.checkedAt)
    ensures ResourceTold(part + [e], home, r)
  {
    LastStep(part, e, Health(r.id));
    LastStep(part, e, Introduction(r.id));
  }

  /** Every place but the changed one holds what some place held before. */
  lemma PlacesKept(before: seq<Resource>, home: string, d: Data, i: nat, after: seq<Resource>, k: nat)
    requires Changed(before, home, d, i, after) && k < |after|
    requires !(d.ResourceAdded? && k == |before|) && !((d.ResourceReplaced? || d.ResourceHealth?) && k == i)
    ensures after[k] in before
    ensures DistinctIds(before) && !d.Created? ==> !About(d, Health(after[k].id))
  {
    if d.ResourceRemoved? {
      assert after[k] == if k < i then before[k] else before[k + 1];
    } else {
      assert after[k] == before[k];
    }
    assert after[k].id in ResourceIds(before);
  }

  lemma PlaceTold(part: seq<Event>, before: seq<Resource>, home: string, e: Event, i: nat, after: seq<Resource>, k: nat)
    requires ResourcesTold(part, home, before) && DistinctIds(before) && !e.data.Created?
    requires Changed(before, home, e.data, i, after) && k < |after|
    ensures ResourceTold(part + [e], home, after[k])
  {
    if (e.data.ResourceAdded? && k == |before|) || (e.data.ResourceReplaced? && k == i) {
      JustIntroduced(part, e, home, after[k]);
    } else if e.data.ResourceHealth? && k == i {
      assert before[i] in before;
      JustChecked(part, e, home, before[i], after[k]);
    } else {
      PlacesKept(before, home, e.data, i, after, k);
      Untouched(part, e, home, after[k]);
    }
  }

  lemma ChangedTold(part: seq<Event>, before: seq<Resource>, home: string, e: Event, i: nat, after: seq<Resource>)
    requires ResourcesTold(part, home, before) && DistinctIds(before) && !e.data.Created?
    requires Changed(before, home, e.data, i, after)
    ensures ResourcesTold(part + [e], home, after)
  {
    forall r | r in after
      ensures ResourceTold(part + [e], home, r)
    {
      var k :| 0 <= k < |after| && after[k] == r;
      PlaceTold(part, before, home, e, i, after, k);
    }
  }

  lemma ResourcesStep(part: seq<Event>, s: Snapshot, e: Event)
    requires (s == EMPTY && part == []) || (Sound(s) && ResourcesTold(part, s.project.home, s.project.resources))
    requires Apply(s, e).Accept?
    ensures ResourcesTold(part + [e], Apply(s, e).next.project.home, Apply(s, e).next.project.resources)
  {
    if s == EMPTY {
      CreatedResources(e);
      forall r | r in NewResources(e.data.initial, e.home)
        ensures ResourceTold(part + [e], e.home, r)
      {
        var k :| 0 <= k < |e.data.initial| && NewResources(e.data.initial, e.home)[k] == r;
        assert e.data.initial[k].id == r.id;
        JustIntroduced(part, e, e.home, r);
      }
    } else {
      DataFrame(s, e);
      var i := ResourcesChange(s, e);
      ChangedTold(part, s.project.resources, s.project.home, e, i, ApplyData(s, e).next.project.resources);
    }
  }

  // -------------------------------------------------------------------- order and primary

  function Ids(resources: seq<Resource>): (ids: seq<string>)
    ensures |ids| == |resources| && forall i | 0 <= i < |ids| :: ids[i] == resources[i].id
  {
    seq(|resources|, i requires 0 <= i < |resources| => resources[i].id)
  }

  function Without(ids: seq<string>, id: string): seq<string> {
    if ids == [] then []
    else Without(ids[..|ids| - 1], id) + if ids[|ids| - 1] == id then [] else [ids[|ids| - 1]]
  }

  function Renamed(ids: seq<string>, id: string, to: string): (r: seq<string>)
    ensures |r| == |ids| && forall i | 0 <= i < |ids| :: r[i] == if ids[i] == id then to else ids[i]
  {
    seq(|ids|, i requires 0 <= i < |ids| => if ids[i] == id then to else ids[i])
  }

  function InitialIds(initial: seq<CreatedResource>): (ids: seq<string>)
    ensures |ids| == |initial| && forall i | 0 <= i < |ids| :: ids[i] == initial[i].id
  {
    seq(|initial|, i requires 0 <= i < |initial| => initial[i].id)
  }

  function IdsNext(ids: seq<string>, d: Data): seq<string> {
    match d
    case Created(_, _, _, _, _, _, initial) => InitialIds(initial)
    case ResourceAdded(r, _) => ids + [r.id]
    case ResourceRemoved(id) => Without(ids, id)
    case ResourceReplaced(oldId, newId, _, _, _, _, _) => Renamed(ids, oldId, newId)
    case _ => ids
  }

  /** The current identifiers in order: additions come last, a replacement takes the place of
      what it replaces. */
  function IdsOf(part: seq<Event>): seq<string> {
    if part == [] then [] else IdsNext(IdsOf(part[..|part| - 1]), part[|part| - 1].data)
  }

  /** The primary resource: the one a creation, an addition or a change makes primary; a
      replacement passes it on, and a removal passes it to the first resource left. */
  function PrimaryOf(part: seq<Event>): string {
    if part == [] then ""
    else
      var primary := PrimaryOf(part[..|part| - 1]);
      match part[|part| - 1].data
      case Created(_, _, _, _, _, path, initial) => PrimaryFrom(initial, path)
      case ResourceAdded(r, makePrimary) => if makePrimary then r.id else primary
      case PrimaryResourceChanged(id) => id
      case ResourceReplaced(oldId, newId, _, _, _, _, _) => if primary == oldId then newId else primary
      case ResourceRemoved(id) =>
        if primary != id then primary else if IdsOf(part) == [] then "" else IdsOf(part)[0]
      case _ => primary
  }

  ghost predicate OrderTold(part: seq<Event>, p: Project) {
    Ids(p.resources) == IdsOf(part) && p.primary == PrimaryOf(part)
  }

  lemma {:induction false} WithoutAbsent(ids: seq<string>, id: string)
    requires id !in ids
    ensures Without(ids, id) == ids
  {
    if ids != [] {
      WithoutAbsent(ids[..|ids| - 1], id);
    }
  }

  lemma {:induction false} WithoutAt(ids: seq<string>, i: nat)
    requires i < |ids| && forall j, k | 0 <= j < k < |ids| :: ids[j] != ids[k]
    ensures Without(ids, ids[i]) == ids[..i] + ids[i + 1..]
  {
    var n := |ids| - 1;
    var front := ids[..n];
    if i == n {
      WithoutAbsent(front, ids[n]);
      assert ids[n + 1..] == [];
    } else {
      WithoutAt(front, i);
      assert front[..i] == ids[..i] && front[i + 1..] + [ids[n]] == ids[i + 1..];
    }
  }

  lemma IdsNextIs(before: seq<Resource>, home: string, d: Data, i: nat, after: seq<Resource>)
    requires Changed(before, home, d, i, after) && DistinctIds(before) && !d.Created?
    ensures Ids(after) == IdsNext(Ids(before), d)
  {
    if d.ResourceRemoved? {
      WithoutAt(Ids(before), i);
    }
  }

  lemma PrimaryAfter(s: Snapshot, e: Event)
    requires ApplyData(s, e).Accept?
    ensures var t := ApplyData(s, e).next.project;
            t.primary ==
              match e.data
              case ResourceAdded(r, makePrimary) => if makePrimary then r.id else s.project.primary
              case PrimaryResourceChanged(id) => id
              case ResourceReplaced(oldId, newId, _, _, _, _, _) =>
                if s.project.primary == oldId then newId else s.project.primary
              case ResourceRemoved(id) =>
                if s.project.primary != id then s.project.primary
                else if t.resources == [] then "" else t.resources[0].id
              case _ => s.project.primary
  {
    DataFrame(s, e);
  }

  lemma OrderData(part: seq<Event>, s: Snapshot, e: Event)
    requires Sound(s) && OrderTold(part, s.project) && ApplyData(s, e).Accept?
    ensures OrderTold(part + [e], ApplyData(s, e).next.project)
  {
    var t := ApplyData(s, e).next.project;
    assert (part + [e])[..|part|] == part;
    DataFrame(s, e);
    var i := ResourcesChange(s, e);
    IdsNextIs(s.project.resources, s.project.home, e.data, i, t.resources);
    PrimaryAfter(s, e);
    PrimaryNext(part, e, s.project.primary, t);
  }

  lemma PrimaryNext(part: seq<Event>, e: Event, primary: string, t: Project)
    requires !e.data.Created? && primary == PrimaryOf(part) && Ids(t.resources) == IdsOf(part + [e])
    requires t.primary ==
               match e.data
               case ResourceAdded(r, makePrimary) => if makePrimary then r.id else primary
               case PrimaryResourceChanged(id) => id
               case ResourceReplaced(oldId, newId, _, _, _, _, _) => if primary == oldId then newId else primary
               case ResourceRemoved(id) =>
                 if primary != id then primary else if t.resources == [] then "" else t.resources[0].id
               case _ => primary
    ensures t.primary == PrimaryOf(part + [e])
  {
    assert (part + [e])[..|part|] == part;
  }

  lemma OrderCreated(e: Event, p: Project)
    requires e.data.Created? && p.resources == NewResources(e.data.initial, e.home)
    requires p.primary == PrimaryFrom(e.data.initial, e.data.primaryPath)
    ensures OrderTold([e], p)
  {
    assert [e][..0] == [];
    assert Ids(p.resources) == InitialIds(e.data.initial);
  }

  lemma OrderStep(part: seq<Event>, s: Snapshot, e: Event)
    requires (s == EMPTY && part == []) || (Sound(s) && OrderTold(part, s.project))
    requires Apply(s, e).Accept?
    ensures OrderTold(part + [e], Apply(s, e).next.project)
  {
    if s == EMPTY {
      CreatedResources(e);
      OrderCreated(e, Apply(s, e).next.project);
      assert part + [e] == [e];
    } else {
      OrderData(part, s, e);
    }
  }
}
