/**
 What every accepted project event keeps: claims, resource projections, assignment epochs,
 acceptances and dispatches stay consistent with the project they describe.
 */
module ProjectInvariants {
  import opened ProjectModel
  import opened Options

  function ResourceIds(resources: seq<Resource>): set<string> {
    set r | r in resources :: r.id
  }

  /** Current resources have distinct identifiers, and the unremoved rows match them one to one. */
  ghost predicate ResourcesMatch(current: seq<Resource>, rows: seq<ResourceRow>) {
    && (forall i, j | 0 <= i < j < |current| :: current[i].id != current[j].id)
    && (forall k | 0 <= k < |rows| && IsLive(rows[k]) :: rows[k].resource in current)
    && (forall k, l | 0 <= k < l < |rows| && IsLive(rows[k]) && IsLive(rows[l]) ::
          rows[k].resource.id != rows[l].resource.id)
    && (forall r | r in current :: exists k :: 0 <= k < |rows| && IsLive(rows[k]) && rows[k].resource == r)
  }

  /** Held claims lie on current resources, one each at most; an open project claims every
      current resource, a closed one claims none. */
  ghost predicate ClaimsMatch(lifecycle: Lifecycle, ids: set<string>, claims: seq<ClaimRow>) {
    && (forall i | 0 <= i < |claims| && Held(claims[i]) :: claims[i].resourceId in ids)
    && (forall i, j | 0 <= i < j < |claims| && Held(claims[i]) && Held(claims[j]) ::
          claims[i].resourceId != claims[j].resourceId)
    && (lifecycle == Open ==> forall id | id in ids :: exists i :: 0 <= i < |claims| && Held(claims[i]) && claims[i].resourceId == id)
    && (lifecycle == Closed ==> forall i | 0 <= i < |claims| :: !Held(claims[i]))
  }

  /** At most the last epoch is un-ended, and it is the current assignment; a closed project
      has none, and only a closed project is archived. */
  ghost predicate EpochsMatch(lifecycle: Lifecycle, archived: bool, current: Option<Assignment>, rows: seq<AssignmentRow>) {
    && (archived ==> lifecycle == Closed)
    && (lifecycle == Closed ==> current.None?)
    && (forall i | 0 <= i < |rows| :: rows[i].endedBy == "" <==> rows[i].assignment.state != Ended)
    && (forall i | 0 <= i < |rows| - 1 :: rows[i].endedBy != "")
    && (rows != [] ==> (rows[|rows| - 1].endedBy == "" <==> current.Some?))
    && (current.Some? ==> rows != [] && rows[|rows| - 1].assignment == current.value)
  }

  /** Acceptances are numbered from one without gaps, with distinct messages and message
      events; dispatches are of accepted messages, each at most once. */
  ghost predicate MessagesMatch(acceptances: seq<Acceptance>, dispatches: seq<Dispatch>) {
    && (forall i | 0 <= i < |acceptances| :: acceptances[i].sequence == i + 1)
    && (forall i, j | 0 <= i < j < |acceptances| ::
          acceptances[i].messageId != acceptances[j].messageId &&
          acceptances[i].messageEventId != acceptances[j].messageEventId)
    && (forall i | 0 <= i < |dispatches| :: IsAccepted(acceptances, dispatches[i].messageId, dispatches[i].sequence))
    && (forall i, j | 0 <= i < j < |dispatches| ::
          dispatches[i].messageId != dispatches[j].messageId && dispatches[i].sequence != dispatches[j].sequence)
  }

  ghost predicate Sound(s: Snapshot) {
    && s.project.id != ""
    && ResourcesMatch(s.project.resources, s.resources)
    && ClaimsMatch(s.project.lifecycle, ResourceIds(s.project.resources), s.claims)
    && (s.project.primary == "" || s.project.primary in ResourceIds(s.project.resources))
    && EpochsMatch(s.project.lifecycle, s.project.archived, s.assignment, s.assignments)
    && MessagesMatch(s.acceptances, s.dispatches)
  }

  /** What callers of the state machine guarantee of an event: a non-empty identifier, and
      distinct resource identifiers inside a creation. */
  ghost predicate ProperEvent(e: Event) {
    && e.id != ""
    && (e.data.Created? ==>
          forall i, j | 0 <= i < j < |e.data.initial| :: e.data.initial[i].id != e.data.initial[j].id)
  }

  // ------------------------------------------------------------------------- resources

  /** The projection look-up behind removal, replacement and health never misses. */
  lemma LookupNeverMisses(current: seq<Resource>, rows: seq<ResourceRow>, id: string)
    requires ResourcesMatch(current, rows)
    ensures FindResource(current, id) >= 0 <==> FindLiveRow(rows, id) >= 0
    ensures FindResource(current, id) >= 0 <==> id in ResourceIds(current)
    ensures FindResource(current, id) >= 0 ==>
              rows[FindLiveRow(rows, id)].resource == current[FindResource(current, id)]
  {
    var index, row := FindResource(current, id), FindLiveRow(rows, id);
    if index >= 0 {
      assert current[index] in current;
    }
    if row >= 0 {
      assert rows[row].resource in current;
    }
  }

  lemma AddMatches(current: seq<Resource>, rows: seq<ResourceRow>, r: Resource, row: ResourceRow)
    requires ResourcesMatch(current, rows) && FindResource(current, r.id) < 0
    requires IsLive(row) && row.resource == r
    ensures ResourcesMatch(current + [r], rows + [row])
    ensures ResourceIds(current + [r]) == ResourceIds(current) + {r.id}
  {
    var more := rows + [row];
    forall x | x in current + [r]
      ensures exists k :: 0 <= k < |more| && IsLive(more[k]) && more[k].resource == x
    {
      if x in current {
        var k :| 0 <= k < |rows| && IsLive(rows[k]) && rows[k].resource == x;
        assert more[k].resource == x;
      } else {
        assert more[|rows|].resource == x;
      }
    }
  }

  lemma RemoveMatches(current: seq<Resource>, rows: seq<ResourceRow>, i: nat, k: nat, gone: ResourceRow)
    requires ResourcesMatch(current, rows) && i < |current| && k < |rows|
    requires IsLive(rows[k]) && rows[k].resource == current[i] && !IsLive(gone)
    ensures ResourcesMatch(RemoveAt(current, i), rows[k := gone])
    ensures ResourceIds(RemoveAt(current, i)) == ResourceIds(current) - {current[i].id}
  {
    var left := RemoveAt(current, i);
    forall x
      ensures x in left <==> x in current && x != current[i]
    {
      if x in current && x != current[i] {
        var j :| 0 <= j < |current| && current[j] == x;
        assert left[if j < i then j else j - 1] == x;
      }
    }
    var after := rows[k := gone];
    forall x | x in left
      ensures exists l :: 0 <= l < |after| && IsLive(after[l]) && after[l].resource == x
    {
      var l :| 0 <= l < |rows| && IsLive(rows[l]) && rows[l].resource == x;
      assert after[l].resource == x;
    }
    forall x | x in current && x.id == current[i].id
      ensures x == current[i]
    {
    }
  }

  /** Setting one current resource together with its row keeps the match. */
  lemma SetMatches(current: seq<Resource>, rows: seq<ResourceRow>, i: nat, k: nat, r: Resource)
    requires ResourcesMatch(current, rows) && i < |current| && k < |rows|
    requires IsLive(rows[k]) && rows[k].resource == current[i] && r.id == current[i].id
    ensures ResourcesMatch(current[i := r], rows[k := rows[k].(resource := r)])
    ensures ResourceIds(current[i := r]) == ResourceIds(current)
  {
    var now, set_ := current[i := r], rows[k := rows[k].(resource := r)];
    forall l | 0 <= l < |set_| && IsLive(set_[l])
      ensures set_[l].resource in now
    {
      if l != k {
        var j :| 0 <= j < |current| && current[j] == rows[l].resource;
        assert j != i && now[j] == rows[l].resource;
      } else {
        assert now[i] == r;
      }
    }
    forall x | x in now
      ensures exists l :: 0 <= l < |set_| && IsLive(set_[l]) && set_[l].resource == x
    {
      var j :| 0 <= j < |now| && now[j] == x;
      if j == i {
        assert set_[k].resource == x;
      } else {
        assert current[j] in current;
        var l :| 0 <= l < |rows| && IsLive(rows[l]) && rows[l].resource == current[j];
        assert l != k && set_[l].resource == x;
      }
    }
    SameIds(current, i, r);
  }

  lemma SameIds(current: seq<Resource>, i: nat, r: Resource)
    requires i < |current| && r.id == current[i].id
    ensures ResourceIds(current[i := r]) == ResourceIds(current)
  {
    var now := current[i := r];
    forall id
      ensures id in ResourceIds(now) <==> id in ResourceIds(current)
    {
      if id in ResourceIds(current) {
        var j :| 0 <= j < |current| && current[j].id == id;
        assert now[j] in now && now[j].id == id;
      }
      if id in ResourceIds(now) {
        var j :| 0 <= j < |now| && now[j].id == id;
        assert current[j] in current && current[j].id == id;
      }
    }
  }

  /** Replacing one current resource by a new one, with its row retired and a new row added. */
  lemma ReplaceMatches(current: seq<Resource>, rows: seq<ResourceRow>, i: nat, k: nat, gone: ResourceRow, r: Resource, row: ResourceRow)
    requires ResourcesMatch(current, rows) && i < |current| && k < |rows|
    requires IsLive(rows[k]) && rows[k].resource == current[i] && !IsLive(gone)
    requires FindResource(current, r.id) < 0 && IsLive(row) && row.resource == r
    ensures ResourcesMatch(current[i := r], rows[k := gone] + [row])
    ensures ResourceIds(current[i := r]) == ResourceIds(current) - {current[i].id} + {r.id}
  {
    var left := RemoveAt(current, i);
    RemoveMatches(current, rows, i, k, gone);
    assert forall j | 0 <= j < |left| :: left[j] in current;
    AddMatches(left, rows[k := gone], r, row);
    ReplacedMembers(current, i, r);
    OrderDoesNotMatter(left + [r], current[i := r], rows[k := gone] + [row]);
  }

  lemma ReplacedMembers(current: seq<Resource>, i: nat, r: Resource)
    requires i < |current|
    ensures forall x :: x in current[i := r] <==> x in RemoveAt(current, i) + [r]
  {
    var now, left := current[i := r], RemoveAt(current, i);
    forall x
      ensures x in now <==> x in left + [r]
    {
      if x in now {
        var j :| 0 <= j < |now| && now[j] == x;
        assert j != i ==> left[if j < i then j else j - 1] == x;
      }
      if x in left {
        var j :| 0 <= j < |left| && left[j] == x;
        assert now[if j < i then j else j + 1] == x;
      }
      assert now[i] == r;
    }
  }

  lemma OrderDoesNotMatter(one: seq<Resource>, two: seq<Resource>, rows: seq<ResourceRow>)
    requires ResourcesMatch(one, rows) && forall x :: x in one <==> x in two
    requires forall i, j | 0 <= i < j < |two| :: two[i].id != two[j].id
    ensures ResourcesMatch(two, rows) && ResourceIds(two) == ResourceIds(one)
  {
  }

  lemma CreateMatches(rs: seq<Resource>, e: Event)
    requires forall i, j | 0 <= i < j < |rs| :: rs[i].id != rs[j].id
    ensures ResourcesMatch(rs, NewRows(rs, e))
  {
    var rows := NewRows(rs, e);
    forall r | r in rs
      ensures exists k :: 0 <= k < |rows| && IsLive(rows[k]) && rows[k].resource == r
    {
      var k :| 0 <= k < |rs| && rs[k] == r;
      assert rows[k].resource == r;
    }
  }

  // ---------------------------------------------------------------------------- claims

  lemma ClaimAllMatches(rs: seq<Resource>, claims: seq<ClaimRow>, e: Event)
    requires forall i, j | 0 <= i < j < |rs| :: rs[i].id != rs[j].id
    requires forall i | 0 <= i < |claims| :: !Held(claims[i])
    ensures ClaimsMatch(Open, ResourceIds(rs), claims + ClaimAll(rs, e))
  {
    var all := claims + ClaimAll(rs, e);
    forall i | 0 <= i < |all| && Held(all[i])
      ensures i >= |claims| && all[i].resourceId == rs[i - |claims|].id && rs[i - |claims|] in rs
    {
    }
    forall id | id in ResourceIds(rs)
      ensures exists i :: 0 <= i < |all| && Held(all[i]) && all[i].resourceId == id
    {
      var k :| 0 <= k < |rs| && rs[k].id == id;
      assert all[|claims| + k] == Claim(id, e);
    }
  }

  lemma ReleaseAllMatches(claims: seq<ClaimRow>, ids: set<string>, e: Event)
    requires e.id != ""
    ensures ClaimsMatch(Closed, ids, Release(claims, None, e))
  {
  }

  lemma ReleaseOneMatches(lifecycle: Lifecycle, ids: set<string>, claims: seq<ClaimRow>, id: string, e: Event)
    requires ClaimsMatch(lifecycle, ids, claims) && e.id != ""
    ensures ClaimsMatch(lifecycle, ids - {id}, Release(claims, Some(id), e))
  {
    var left := Release(claims, Some(id), e);
    if lifecycle == Open {
      forall x | x in ids - {id}
        ensures exists i :: 0 <= i < |left| && Held(left[i]) && left[i].resourceId == x
      {
        var i :| 0 <= i < |claims| && Held(claims[i]) && claims[i].resourceId == x;
        assert left[i] == claims[i];
      }
    }
  }

  /** A new resource is claimed at once exactly when the project is open. */
  lemma ClaimNewMatches(lifecycle: Lifecycle, ids: set<string>, claims: seq<ClaimRow>, id: string, e: Event)
    requires ClaimsMatch(lifecycle, ids, claims) && id !in ids
    ensures ClaimsMatch(lifecycle, ids + {id}, claims + if lifecycle == Open then [Claim(id, e)] else [])
  {
    if lifecycle == Open {
      var more := claims + [Claim(id, e)];
      forall x | x in ids + {id}
        ensures exists i :: 0 <= i < |more| && Held(more[i]) && more[i].resourceId == x
      {
        if x == id {
          assert more[|claims|] == Claim(id, e);
        } else {
          var i :| 0 <= i < |claims| && Held(claims[i]) && claims[i].resourceId == x;
          assert more[i] == claims[i];
        }
      }
    } else {
      assert claims + [] == claims;
    }
  }

  // ------------------------------------------------------------------------ operations

  lemma CreateKeeps(e: Event)
    requires e.data.Created? && ProperEvent(e)
    ensures !Create(EMPTY, e).Panic? && (Create(EMPTY, e).Accept? ==> Sound(Create(EMPTY, e).next))
  {
    if Create(EMPTY, e).Accept? {
      var t := Create(EMPTY, e).next;
      var rs := NewResources(e.data.initial, e.home);
      CreateMatches(rs, e);
      assert t.resources == NewRows(rs, e);
      assert ClaimsMatch(t.project.lifecycle, ResourceIds(rs), t.claims) by {
        if e.data.open {
          ClaimAllMatches(rs, [], e);
        }
      }
      if rs != [] {
        assert rs[e.data.primaryPath] in rs;
      }
    }
  }

  lemma AddKeeps(s: Snapshot, e: Event)
    requires Sound(s) && ProperEvent(e) && e.data.ResourceAdded?
    ensures AddResource(s, e).Accept? ==> Sound(AddResource(s, e).next)
  {
    if AddResource(s, e).Accept? {
      var r := NewResource(e.data.added, s.project.home);
      LookupNeverMisses(s.project.resources, s.resources, r.id);
      AddMatches(s.project.resources, s.resources, r, NewRow(r, e));
      ClaimNewMatches(s.project.lifecycle, ResourceIds(s.project.resources), s.claims, r.id, e);
    }
  }

  lemma RemoveKeeps(s: Snapshot, e: Event)
    requires Sound(s) && ProperEvent(e) && e.data.ResourceRemoved?
    ensures !RemoveResource(s, e).Panic?
    ensures RemoveResource(s, e).Accept? ==> Sound(RemoveResource(s, e).next)
  {
    var id := e.data.removedId;
    LookupNeverMisses(s.project.resources, s.resources, id);
    var index, row := FindResource(s.project.resources, id), FindLiveRow(s.resources, id);
    if index >= 0 {
      RemoveMatches(s.project.resources, s.resources, index, row,
                    s.resources[row].(removedBy := e.id, removedAt := e.createdAt));
      ReleaseOneMatches(s.project.lifecycle, ResourceIds(s.project.resources), s.claims, id, e);
      var left := RemoveAt(s.project.resources, index);
      assert left != [] ==> left[0] in left;
    }
  }

  lemma ReplaceKeeps(s: Snapshot, e: Event)
    requires Sound(s) && ProperEvent(e) && e.data.ResourceReplaced?
    ensures !ReplaceResource(s, e).Panic?
    ensures ReplaceResource(s, e).Accept? ==> Sound(ReplaceResource(s, e).next)
  {
    var d := e.data;
    LookupNeverMisses(s.project.resources, s.resources, d.oldId);
    LookupNeverMisses(s.project.resources, s.resources, d.newId);
    if ReplaceResource(s, e).Accept? {
      var index, row := FindResource(s.project.resources, d.oldId), FindLiveRow(s.resources, d.oldId);
      var r := ReplaceResource(s, e).next.project.resources[index];
      ReplaceMatches(s.project.resources, s.resources, index, row,
                     s.resources[row].(removedBy := e.id, removedAt := e.createdAt), r, NewRow(r, e));
      var ids := ResourceIds(s.project.resources);
      ReleaseOneMatches(s.project.lifecycle, ids, s.claims, d.oldId, e);
      ClaimNewMatches(s.project.lifecycle, ids - {d.oldId}, Release(s.claims, Some(d.oldId), e), d.newId, e);
    }
  }

  lemma CheckKeeps(s: Snapshot, e: Event)
    requires Sound(s) && ProperEvent(e) && e.data.ResourceHealth?
    ensures !CheckResource(s, e).Panic?
    ensures CheckResource(s, e).Accept? ==> Sound(CheckResource(s, e).next)
  {
    var d := e.data;
    LookupNeverMisses(s.project.resources, s.resources, d.checkedId);
    var index, row := FindResource(s.project.resources, d.checkedId), FindLiveRow(s.resources, d.checkedId);
    if index >= 0 {
      var r := CheckResource(s, e).next.project.resources[index];
      SetMatches(s.project.resources, s.resources, index, row, r);
    }
  }

  lemma UpdateEpochKeeps(s: Snapshot, a: Assignment)
    requires Sound(s) && s.assignment.Some? && a.state != Ended
    ensures UpdateEpoch(s, a).Accept? && Sound(UpdateEpoch(s, a).next)
  {
  }

  lemma EndEpochKeeps(s: Snapshot, e: Event, forced: bool)
    requires Sound(s) && ProperEvent(e)
    ensures EndEpoch(s, e, forced).Accept? && Sound(EndEpoch(s, e, forced).next)
    ensures EndEpoch(s, e, forced).next.assignment.None?
    ensures EndEpoch(s, e, forced).next.project == s.project.(suggested := EndEpoch(s, e, forced).next.project.suggested)
  {
  }

  lemma ConfigureKeeps(s: Snapshot, e: Event)
    requires Sound(s) && ProperEvent(e) && e.data.AssignmentConfiguring?
    ensures Configure(s, e).Accept? ==> Sound(Configure(s, e).next)
  {
  }

  lemma RunnableKeeps(s: Snapshot, e: Event)
    requires Sound(s) && ProperEvent(e) && e.data.AssignmentRunnable?
    ensures !MakeRunnable(s, e).Panic? && (MakeRunnable(s, e).Accept? ==> Sound(MakeRunnable(s, e).next))
  {
    if IsCurrent(s, e.data.runnableId, e.data.runnableAgent) {
      UpdateEpochKeeps(s, s.assignment.value.(state := Runnable, thread := e.data.threadId));
    }
  }

  lemma BlockKeeps(s: Snapshot, e: Event)
    requires Sound(s) && ProperEvent(e) && e.data.AssignmentBlocked?
    ensures !Block(s, e).Panic? && (Block(s, e).Accept? ==> Sound(Block(s, e).next))
  {
    if s.assignment.Some? {
      UpdateEpochKeeps(s, s.assignment.value.(state := Blocked));
    }
  }

  lemma EndKeeps(s: Snapshot, e: Event)
    requires Sound(s) && ProperEvent(e) && e.data.AssignmentEnded?
    ensures !EndAssignment(s, e).Panic? && (EndAssignment(s, e).Accept? ==> Sound(EndAssignment(s, e).next))
  {
    EndEpochKeeps(s, e, e.data.endForced);
  }

  lemma CloseKeeps(s: Snapshot, e: Event)
    requires Sound(s) && ProperEvent(e) && e.data.ClosedDown?
    ensures !FinishClosing(s, e).Panic? && (FinishClosing(s, e).Accept? ==> Sound(FinishClosing(s, e).next))
  {
    EndEpochKeeps(s, e, e.data.forced);
    var t := EndEpoch(s, e, e.data.forced).next;
    ReleaseAllMatches(t.claims, ResourceIds(t.project.resources), e);
  }

  lemma AcceptKeeps(s: Snapshot, e: Event)
    requires Sound(s) && ProperEvent(e) && e.data.MessageAccepted?
    ensures AcceptMessage(s, e).Accept? ==> Sound(AcceptMessage(s, e).next)
  {
    if AcceptMessage(s, e).Accept? {
      var more := AcceptMessage(s, e).next.acceptances;
      forall i | 0 <= i < |s.dispatches|
        ensures IsAccepted(more, s.dispatches[i].messageId, s.dispatches[i].sequence)
      {
        var k :| 0 <= k < |s.acceptances| && s.acceptances[k].messageId == s.dispatches[i].messageId &&
                 s.acceptances[k].sequence == s.dispatches[i].sequence;
        assert more[k] == s.acceptances[k];
      }
    }
  }

  lemma DispatchKeeps(s: Snapshot, e: Event)
    requires Sound(s) && ProperEvent(e) && e.data.MessageDispatched?
    ensures DispatchMessage(s, e).Accept? ==> Sound(DispatchMessage(s, e).next)
  {
  }

  lemma LifecycleKeeps(s: Snapshot, e: Event)
    requires Sound(s) && ProperEvent(e)
    requires e.data.Opened? || e.data.ClosingStarted? || e.data.Archived? || e.data.Unarchived? ||
             e.data.MetadataUpdated? || e.data.PrimaryResourceChanged?
    ensures !ApplyData(s, e).Panic?
    ensures ApplyData(s, e).Accept? ==> Sound(ApplyData(s, e).next)
  {
    if e.data.Opened? && ApplyData(s, e).Accept? {
      ClaimAllMatches(s.project.resources, s.claims, e);
    }
    if e.data.PrimaryResourceChanged? {
      LookupNeverMisses(s.project.resources, s.resources, e.data.primaryId);
    }
  }

  /** Every accepted event keeps a sound project sound, and no event makes one panic. */
  lemma ApplyKeepsSound(s: Snapshot, e: Event)
    requires Sound(s) && ProperEvent(e)
    ensures !Apply(s, e).Panic?
    ensures Apply(s, e).Accept? ==> Sound(Apply(s, e).next)
  {
    if !e.data.Created? {
      ApplyDataKeepsSound(s, e);
    }
  }

  lemma ApplyDataKeepsSound(s: Snapshot, e: Event)
    requires Sound(s) && ProperEvent(e) && !e.data.Created?
    ensures !ApplyData(s, e).Panic?
    ensures ApplyData(s, e).Accept? ==> Sound(ApplyData(s, e).next)
  {
    match e.data
    case ResourceAdded(_, _) => AddKeeps(s, e);
    case ResourceRemoved(_) => RemoveKeeps(s, e);
    case ResourceReplaced(_, _, _, _, _, _, _) => ReplaceKeeps(s, e);
    case ResourceHealth(_, _, _, _) => CheckKeeps(s, e);
    case AssignmentConfiguring(_, _) => ConfigureKeeps(s, e);
    case AssignmentRunnable(_, _, _, _) => RunnableKeeps(s, e);
    case AssignmentBlocked(_, _) => BlockKeeps(s, e);
    case AssignmentEnded(_, _, _) => EndKeeps(s, e);
    case ClosedDown(_) => CloseKeeps(s, e);
    case MessageAccepted(_, _, _) => AcceptKeeps(s, e);
    case MessageDispatched(_, _, _, _, _, _) => DispatchKeeps(s, e);
    case Unsupported =>
    case Missing =>
    case _ => LifecycleKeeps(s, e);
  }

  /** No message is dispatched twice, so dispatches never outnumber acceptances. */
  lemma DispatchesFit(acceptances: seq<Acceptance>, dispatches: seq<Dispatch>)
    requires MessagesMatch(acceptances, dispatches)
    ensures |dispatches| <= |acceptances|
  {
    var used := set i | 0 <= i < |dispatches| :: dispatches[i].sequence;
    UsedSequences(dispatches, |dispatches|);
    forall i | 0 <= i < |dispatches|
      ensures 1 <= dispatches[i].sequence <= |acceptances|
    {
      var k :| 0 <= k < |acceptances| && acceptances[k].messageId == dispatches[i].messageId &&
               acceptances[k].sequence == dispatches[i].sequence;
    }
    BoundedSet(used, |acceptances|);
  }

  lemma {:induction false} UsedSequences(dispatches: seq<Dispatch>, n: nat)
    requires n <= |dispatches|
    requires forall i, j | 0 <= i < j < |dispatches| :: dispatches[i].sequence != dispatches[j].sequence
    ensures |set i | 0 <= i < n :: dispatches[i].sequence| == n
  {
    if n > 0 {
      UsedSequences(dispatches, n - 1);
      assert (set i | 0 <= i < n :: dispatches[i].sequence) ==
             (set i | 0 <= i < n - 1 :: dispatches[i].sequence) + {dispatches[n - 1].sequence};
    }
  }

  lemma {:induction false} BoundedSet(s: set<int>, n: nat)
    requires forall x | x in s :: 1 <= x <= n
    ensures |s| <= n
  {
    if n > 0 {
      BoundedSet(s - {n}, n - 1);
      assert s - {n} == s || s == (s - {n}) + {n};
    } else {
      forall x | x in s
        ensures false
      {
      }
    }
  }
}
