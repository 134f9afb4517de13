/**
 The rows of a project are an audit trail: nothing is taken back, closed rows are frozen, and
 every stamp on a row is that of an accepted event.
 */
module ProjectAudit {
  import opened ProjectModel
  import opened ProjectInvariants
  import opened ProjectHistory
  import opened Options

  // ------------------------------------------------------------------------- append only

  ghost predicate ClaimsExtend(before: seq<ClaimRow>, after: seq<ClaimRow>) {
    && |before| <= |after|
    && forall i | 0 <= i < |before| ::
         && after[i].resourceId == before[i].resourceId
         && after[i].acquiredBy == before[i].acquiredBy
         && after[i].acquiredAt == before[i].acquiredAt
         && (!Held(before[i]) ==> after[i] == before[i])
  }

  ghost predicate ResourcesExtend(before: seq<ResourceRow>, after: seq<ResourceRow>) {
    && |before| <= |after|
    && forall i | 0 <= i < |before| ::
         && after[i].resource.id == before[i].resource.id
         && after[i].addedBy == before[i].addedBy
         && after[i].createdAt == before[i].createdAt
         && (!IsLive(before[i]) ==> after[i] == before[i])
  }

  ghost predicate Extends(before: Snapshot, after: Snapshot) {
    && ClaimsExtend(before.claims, after.claims)
    && ResourcesExtend(before.resources, after.resources)
    && before.threads <= after.threads
    && before.acceptances <= after.acceptances
    && before.dispatches <= after.dispatches
  }

  // -------------------------------------------------------------------------- provenance

  type Stamps = set<(string, int)>

  function Stamp(e: Event): (string, int) {
    (e.id, e.createdAt)
  }

  ghost predicate ClaimsStamped(log: Stamps, claims: seq<ClaimRow>) {
    forall i | 0 <= i < |claims| ::
      && (claims[i].acquiredBy, claims[i].acquiredAt) in log
      && (!Held(claims[i]) ==> (claims[i].releasedBy, claims[i].releasedAt) in log)
  }

  ghost predicate ResourcesStamped(log: Stamps, rows: seq<ResourceRow>) {
    forall i | 0 <= i < |rows| ::
      && (rows[i].addedBy, rows[i].createdAt) in log
      && (!IsLive(rows[i]) ==> (rows[i].removedBy, rows[i].removedAt) in log)
  }

  ghost predicate EpochsStamped(log: Stamps, rows: seq<AssignmentRow>) {
    forall i | 0 <= i < |rows| ::
      && (rows[i].startedBy, rows[i].assignment.startedAt) in log
      && (rows[i].endedBy != "" ==>
            rows[i].assignment.endedAt.Some? && (rows[i].endedBy, rows[i].assignment.endedAt.value) in log)
  }

  ghost predicate MessagesStamped(log: Stamps, acceptances: seq<Acceptance>, dispatches: seq<Dispatch>) {
    && (forall i | 0 <= i < |acceptances| :: (acceptances[i].eventId, acceptances[i].at) in log)
    && (forall i | 0 <= i < |dispatches| :: (dispatches[i].eventId, dispatches[i].at) in log)
  }

  ghost predicate AllStamped(log: Stamps, s: Snapshot) {
    && ClaimsStamped(log, s.claims) && ResourcesStamped(log, s.resources)
    && EpochsStamped(log, s.assignments) && MessagesStamped(log, s.acceptances, s.dispatches)
  }

  /** The stamps of the events that a history accepts. */
  ghost function AcceptedStamps(events: seq<Event>): Stamps {
    if events == [] then {}
    else
      var front, e := events[..|events| - 1], events[|events| - 1];
      AcceptedStamps(front) + if Apply(Replay(front), e).Accept? then {Stamp(e)} else {}
  }

  // ------------------------------------------------------------------------------- steps

  /** What one accepted event does to the trail. */
  ghost predicate Audited(log: Stamps, e: Event, before: Snapshot, after: Snapshot) {
    Extends(before, after) && AllStamped(log + {Stamp(e)}, after)
  }

  predicate LastIsCurrent(s: Snapshot) {
    s.assignment.Some? ==> s.assignments != [] && s.assignments[|s.assignments| - 1].assignment == s.assignment.value
  }

  lemma CreateAudits(log: Stamps, s: Snapshot, e: Event)
    requires AllStamped(log, s) && e.data.Created? && Create(s, e).Accept?
    ensures Audited(log, e, s, Create(s, e).next)
  {
  }

  lemma AddAudits(log: Stamps, s: Snapshot, e: Event)
    requires AllStamped(log, s) && e.data.ResourceAdded? && AddResource(s, e).Accept?
    ensures Audited(log, e, s, AddResource(s, e).next)
  {
  }

  lemma RemoveAudits(log: Stamps, s: Snapshot, e: Event)
    requires AllStamped(log, s) && e.data.ResourceRemoved? && RemoveResource(s, e).Accept?
    ensures Audited(log, e, s, RemoveResource(s, e).next)
  {
  }

  lemma ReplaceAudits(log: Stamps, s: Snapshot, e: Event)
    requires AllStamped(log, s) && e.data.ResourceReplaced? && ReplaceResource(s, e).Accept?
    ensures Audited(log, e, s, ReplaceResource(s, e).next)
  {
  }

  lemma CheckAudits(log: Stamps, s: Snapshot, e: Event)
    requires AllStamped(log, s) && e.data.ResourceHealth? && CheckResource(s, e).Accept?
    ensures Audited(log, e, s, CheckResource(s, e).next)
  {
  }

  lemma CloseAudits(log: Stamps, s: Snapshot, e: Event)
    requires AllStamped(log, s) && LastIsCurrent(s) && e.data.ClosedDown? && FinishClosing(s, e).Accept?
    ensures Audited(log, e, s, FinishClosing(s, e).next)
  {
  }

  lemma EndAudits(log: Stamps, s: Snapshot, e: Event)
    requires AllStamped(log, s) && LastIsCurrent(s) && e.data.AssignmentEnded? && EndAssignment(s, e).Accept?
    ensures Audited(log, e, s, EndAssignment(s, e).next)
  {
  }

  lemma ConfigureAudits(log: Stamps, s: Snapshot, e: Event)
    requires AllStamped(log, s) && e.data.AssignmentConfiguring? && Configure(s, e).Accept?
    ensures Audited(log, e, s, Configure(s, e).next)
  {
  }

  lemma RunnableAudits(log: Stamps, s: Snapshot, e: Event)
    requires AllStamped(log, s) && LastIsCurrent(s) && e.data.AssignmentRunnable? && MakeRunnable(s, e).Accept?
    ensures Audited(log, e, s, MakeRunnable(s, e).next)
  {
  }

  lemma BlockAudits(log: Stamps, s: Snapshot, e: Event)
    requires AllStamped(log, s) && LastIsCurrent(s) && e.data.AssignmentBlocked? && Block(s, e).Accept?
    ensures Audited(log, e, s, Block(s, e).next)
  {
  }

  lemma AcceptAudits(log: Stamps, s: Snapshot, e: Event)
    requires AllStamped(log, s) && e.data.MessageAccepted? && AcceptMessage(s, e).Accept?
    ensures Audited(log, e, s, AcceptMessage(s, e).next)
  {
  }

  lemma DispatchAudits(log: Stamps, s: Snapshot, e: Event)
    requires AllStamped(log, s) && e.data.MessageDispatched? && DispatchMessage(s, e).Accept?
    ensures Audited(log, e, s, DispatchMessage(s, e).next)
  {
  }

  predicate ChangesProject(d: Data) {
    d.Opened? || d.ClosingStarted? || d.Archived? || d.Unarchived? || d.MetadataUpdated? || d.PrimaryResourceChanged?
  }

  lemma ProjectAudits(log: Stamps, s: Snapshot, e: Event)
    requires AllStamped(log, s) && ChangesProject(e.data) && ApplyData(s, e).Accept?
    ensures Audited(log, e, s, ApplyData(s, e).next)
  {
  }

  lemma DataAudits(log: Stamps, s: Snapshot, e: Event)
    requires AllStamped(log, s) && LastIsCurrent(s) && ApplyData(s, e).Accept?
    ensures Audited(log, e, s, ApplyData(s, e).next)
  {
    match e.data
    case ResourceAdded(_, _) => AddAudits(log, s, e);
    case ResourceRemoved(_) => RemoveAudits(log, s, e);
    case ResourceReplaced(_, _, _, _, _, _, _) => ReplaceAudits(log, s, e);
    case ResourceHealth(_, _, _, _) => CheckAudits(log, s, e);
    case AssignmentConfiguring(_, _) => ConfigureAudits(log, s, e);
    case AssignmentRunnable(_, _, _, _) => RunnableAudits(log, s, e);
    case AssignmentBlocked(_, _) => BlockAudits(log, s, e);
    case AssignmentEnded(_, _, _) => EndAudits(log, s, e);
    case ClosedDown(_) => CloseAudits(log, s, e);
    case MessageAccepted(_, _, _) => AcceptAudits(log, s, e);
    case MessageDispatched(_, _, _, _, _, _) => DispatchAudits(log, s, e);
    case _ => ProjectAudits(log, s, e);
  }

  lemma ApplyAudits(log: Stamps, s: Snapshot, e: Event)
    requires AllStamped(log, s) && LastIsCurrent(s) && Apply(s, e).Accept?
    ensures Audited(log, e, s, Apply(s, e).next)
  {
    if e.data.Created? {
      CreateAudits(log, s, e);
    } else {
      DataAudits(log, s, e);
    }
  }

  // -------------------------------------------------------------------------- main results

  /** Over every history, every stamp on a row is the identifier and time of an accepted event. */
  lemma {:induction false} RowsCarryAcceptedStamps(events: seq<Event>)
    requires forall x | x in events :: ProperEvent(x)
    ensures AllStamped(AcceptedStamps(events), Replay(events))
  {
    if events != [] {
      var front, e := events[..|events| - 1], events[|events| - 1];
      assert forall x | x in front + [e] :: x in events;
      RowsCarryAcceptedStamps(front);
      HistoriesAreSound(front, e);
      if Apply(Replay(front), e).Accept? {
        ApplyAudits(AcceptedStamps(front), Replay(front), e);
      }
    }
  }

  lemma ExtendsTransitive(a: Snapshot, b: Snapshot, c: Snapshot)
    requires Extends(a, b) && Extends(b, c)
    ensures Extends(a, c)
  {
  }

  /** Over every history, later snapshots extend earlier ones. */
  lemma {:induction false} RowsAreNeverTakenBack(events: seq<Event>, n: nat)
    requires n <= |events| && forall x | x in events :: ProperEvent(x)
    ensures Extends(Replay(events[..n]), Replay(events))
  {
    if n == |events| {
      assert events[..n] == events;
    } else {
      var front, e := events[..|events| - 1], events[|events| - 1];
      assert front[..n] == events[..n];
      RowsAreNeverTakenBack(front, n);
      assert forall x | x in front + [e] :: x in events;
      RowsCarryAcceptedStamps(front);
      HistoriesAreSound(front, e);
      if Apply(Replay(front), e).Accept? {
        ApplyAudits(AcceptedStamps(front), Replay(front), e);
        ExtendsTransitive(Replay(events[..n]), Replay(front), Replay(events));
      }
    }
  }
}
