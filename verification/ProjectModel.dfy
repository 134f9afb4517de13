/**
 The project state machine on values: a snapshot, the eighteen typed operations, and the
 outcome of applying one event.
 */
module ProjectModel {
  import opened Options

  datatype Lifecycle = Open | Closing | Closed

  datatype AssignmentState = Configuring | Runnable | Blocked | Ended

  datatype Resource = Resource(
    id: string, kind: string, home: string, display: string, canonical: string,
    health: string, details: map<string, string>, checkedAt: int)

  datatype Assignment = Assignment(
    id: string, agent: string, state: AssignmentState, thread: string, startedAt: int, endedAt: Option<int>)

  datatype Project = Project(
    id: string, home: string, mailbox: string, predecessor: string, name: string, brief: string,
    lifecycle: Lifecycle, archived: bool, primary: string, resources: seq<Resource>,
    suggested: string, head: string, createdAt: int, updatedAt: int)

  datatype ResourceRow = ResourceRow(
    resource: Resource, addedBy: string, removedBy: string, createdAt: int, removedAt: int)

  datatype ClaimRow = ClaimRow(
    resourceId: string, acquiredBy: string, releasedBy: string, acquiredAt: int, releasedAt: int)

  datatype AssignmentRow = AssignmentRow(assignment: Assignment, startedBy: string, endedBy: string, forced: bool)

  datatype ThreadRow = ThreadRow(
    id: string, project: string, agent: string, harness: string, external: string, directory: string, createdAt: int)

  datatype Acceptance = Acceptance(messageId: string, messageEventId: string, sequence: int, eventId: string, at: int)

  datatype Dispatch = Dispatch(
    messageId: string, sequence: int, assignmentId: string, agent: string, thread: string, external: string,
    eventId: string, at: int)

  datatype Snapshot = Snapshot(
    project: Project, assignment: Option<Assignment>,
    resources: seq<ResourceRow>, claims: seq<ClaimRow>, assignments: seq<AssignmentRow>,
    threads: seq<ThreadRow>, acceptances: seq<Acceptance>, dispatches: seq<Dispatch>)

  const EMPTY: Snapshot :=
    Snapshot(Project("", "", "", "", "", "", Closed, false, "", [], "", "", 0, 0), None, [], [], [], [], [], [])

  datatype CreatedResource = CreatedResource(
    id: string, kind: string, display: string, canonical: string,
    health: string, details: map<string, string>, checkedAt: int)

  datatype Thread = Thread(id: string, harness: string, external: string, directory: string, createdAt: int)

  datatype Data =
    | Created(mailbox: string, name: string, brief: string, predecessor: string, open: bool, primaryPath: int,
              initial: seq<CreatedResource>)
    | Opened
    | ClosingStarted
    | ClosedDown(forced: bool)
    | Archived
    | Unarchived
    | MetadataUpdated(newName: string, newBrief: string)
    | ResourceAdded(added: CreatedResource, makePrimary: bool)
    | ResourceRemoved(removedId: string)
    | ResourceReplaced(oldId: string, newId: string, newDisplay: string, newCanonical: string,
                       newHealth: string, newDetails: map<string, string>, newCheckedAt: int)
    | PrimaryResourceChanged(primaryId: string)
    | ResourceHealth(checkedId: string, checkedHealth: string, checkedDetails: map<string, string>, healthCheckedAt: int)
    | AssignmentConfiguring(assignmentId: string, agent: string)
    | AssignmentRunnable(runnableId: string, runnableAgent: string, threadId: string, thread: Option<Thread>)
    | AssignmentBlocked(blockedId: string, blockedAgent: string)
    | AssignmentEnded(endedId: string, endedAgent: string, endForced: bool)
    | MessageAccepted(messageId: string, messageEventId: string, sequence: int)
    | MessageDispatched(dispatchedId: string, dispatchedSequence: int, toAssignment: string, toAgent: string,
                        toThread: string, toExternal: string)
    | Unsupported
    | Missing

  datatype Event = Event(id: string, project: string, home: string, previous: string, createdAt: int, data: Data)

  /** `Panic` is the run-time failure of indexing a list at -1. */
  datatype Outcome = Accept(next: Snapshot) | Reject | Panic

  // -------------------------------------------------------------------------- look-ups

  function FindResource(resources: seq<Resource>, id: string, from: nat := 0): (index: int)
    requires from <= |resources|
    ensures index == -1 || (from <= index < |resources| && resources[index].id == id)
    ensures index == -1 ==> forall i | from <= i < |resources| :: resources[i].id != id
    ensures index >= 0 ==> forall i | from <= i < index :: resources[i].id != id
    decreases |resources| - from
  {
    if from == |resources| then -1
    else if resources[from].id == id then from
    else FindResource(resources, id, from + 1)
  }

  predicate IsLive(row: ResourceRow) {
    row.removedBy == ""
  }

  function FindLiveRow(rows: seq<ResourceRow>, id: string, from: nat := 0): (index: int)
    requires from <= |rows|
    ensures index == -1 || (from <= index < |rows| && rows[index].resource.id == id && IsLive(rows[index]))
    ensures index == -1 ==> forall i | from <= i < |rows| :: !(rows[i].resource.id == id && IsLive(rows[i]))
    ensures index >= 0 ==> forall i | from <= i < index :: !(rows[i].resource.id == id && IsLive(rows[i]))
    decreases |rows| - from
  {
    if from == |rows| then -1
    else if rows[from].resource.id == id && IsLive(rows[from]) then from
    else FindLiveRow(rows, id, from + 1)
  }

  function RemoveAt<T>(s: seq<T>, i: nat): seq<T>
    requires i < |s|
  {
    s[..i] + s[i + 1..]
  }

  predicate Held(claim: ClaimRow) {
    claim.releasedBy == ""
  }

  /** Release the held claims, all of them or those on one resource. */
  function Release(claims: seq<ClaimRow>, only: Option<string>, e: Event): (r: seq<ClaimRow>)
    ensures |r| == |claims|
    ensures forall i | 0 <= i < |claims| :: r[i] ==
              if Held(claims[i]) && (only.None? || claims[i].resourceId == only.value)
              then claims[i].(releasedBy := e.id, releasedAt := e.createdAt) else claims[i]
  {
    seq(|claims|, i requires 0 <= i < |claims| =>
      if Held(claims[i]) && (only.None? || claims[i].resourceId == only.value)
      then claims[i].(releasedBy := e.id, releasedAt := e.createdAt) else claims[i])
  }

  function Claim(id: string, e: Event): ClaimRow {
    ClaimRow(id, e.id, "", e.createdAt, 0)
  }

  function ClaimAll(resources: seq<Resource>, e: Event): (claims: seq<ClaimRow>)
    ensures |claims| == |resources| && forall i | 0 <= i < |claims| :: claims[i] == Claim(resources[i].id, e)
  {
    seq(|resources|, i requires 0 <= i < |resources| => Claim(resources[i].id, e))
  }

  function NewResource(r: CreatedResource, home: string): Resource {
    Resource(r.id, r.kind, home, r.display, r.canonical, r.health, r.details, r.checkedAt)
  }

  function NewResources(rs: seq<CreatedResource>, home: string): (r: seq<Resource>)
    ensures |r| == |rs| && forall i | 0 <= i < |r| :: r[i] == NewResource(rs[i], home)
  {
    seq(|rs|, i requires 0 <= i < |rs| => NewResource(rs[i], home))
  }

  function NewRow(r: Resource, e: Event): ResourceRow {
    ResourceRow(r, e.id, "", e.createdAt, 0)
  }

  function NewRows(rs: seq<Resource>, e: Event): (rows: seq<ResourceRow>)
    ensures |rows| == |rs| && forall i | 0 <= i < |rows| :: rows[i] == NewRow(rs[i], e)
  {
    seq(|rs|, i requires 0 <= i < |rs| => NewRow(rs[i], e))
  }

  // ------------------------------------------------------------------------ operations

  function Create(s: Snapshot, e: Event): Outcome
    requires e.data.Created?
  {
    var d := e.data;
    if s.project.id != "" || e.previous != "" then Reject
    else if e.project == "" || e.home == "" || d.mailbox == "" || d.name == "" then Reject
    else
      var created := s.(
        project := Project(e.project, e.home, d.mailbox, d.predecessor, d.name, d.brief,
                           if d.open then Open else Closed, false, "", NewResources(d.initial, e.home),
                           "", e.id, e.createdAt, e.createdAt),
        assignment := None,
        resources := s.resources + NewRows(NewResources(d.initial, e.home), e),
        claims := s.claims + if d.open then ClaimAll(NewResources(d.initial, e.home), e) else []);
      if d.initial == [] then Accept(created)
      else if d.primaryPath < 0 || d.primaryPath >= |d.initial| then Reject
      else Accept(created.(project := created.project.(primary := d.initial[d.primaryPath].id)))
  }

  function AddResource(s: Snapshot, e: Event): Outcome
    requires e.data.ResourceAdded?
  {
    var r := e.data.added;
    if r.id == "" || r.kind == "" || r.canonical == "" || FindResource(s.project.resources, r.id) >= 0 then Reject
    else
      var resource := NewResource(r, s.project.home);
      Accept(s.(
        project := s.project.(resources := s.project.resources + [resource],
                              primary := if e.data.makePrimary then r.id else s.project.primary),
        resources := s.resources + [NewRow(resource, e)],
        claims := s.claims + if s.project.lifecycle == Open then [Claim(r.id, e)] else []))
  }

  function RemoveResource(s: Snapshot, e: Event): Outcome
    requires e.data.ResourceRemoved?
  {
    var id := e.data.removedId;
    var index := FindResource(s.project.resources, id);
    if index < 0 then Reject
    else
      var row := FindLiveRow(s.resources, id);
      if row < 0 then Panic
      else
        var left := RemoveAt(s.project.resources, index);
        Accept(s.(
          project := s.project.(
            resources := left,
            primary := if s.project.primary != id then s.project.primary else if left != [] then left[0].id else ""),
          resources := s.resources[row := s.resources[row].(removedBy := e.id, removedAt := e.createdAt)],
          claims := Release(s.claims, Some(id), e)))
  }

  function ReplaceResource(s: Snapshot, e: Event): Outcome
    requires e.data.ResourceReplaced?
  {
    var d := e.data;
    var index := FindResource(s.project.resources, d.oldId);
    if index < 0 || d.newId == "" || FindResource(s.project.resources, d.newId) >= 0 then Reject
    else
      var row := FindLiveRow(s.resources, d.oldId);
      if row < 0 then Panic
      else
        var resource := Resource(d.newId, "path", s.project.home, d.newDisplay, d.newCanonical,
                                 d.newHealth, d.newDetails, d.newCheckedAt);
        Accept(s.(
          project := s.project.(
            resources := s.project.resources[index := resource],
            primary := if s.project.primary == d.oldId then d.newId else s.project.primary),
          resources := s.resources[row := s.resources[row].(removedBy := e.id, removedAt := e.createdAt)] +
                       [NewRow(resource, e)],
          claims := Release(s.claims, Some(d.oldId), e) +
                    if s.project.lifecycle == Open then [Claim(d.newId, e)] else []))
  }

  function CheckResource(s: Snapshot, e: Event): Outcome
    requires e.data.ResourceHealth?
  {
    var d := e.data;
    var index := FindResource(s.project.resources, d.checkedId);
    if index < 0 then Reject
    else
      var row := FindLiveRow(s.resources, d.checkedId);
      if row < 0 then Panic
      else
        var resource := s.project.resources[index].(
          health := d.checkedHealth, details := d.checkedDetails, checkedAt := d.healthCheckedAt);
        Accept(s.(
          project := s.project.(resources := s.project.resources[index := resource]),
          resources := s.resources[row := s.resources[row].(resource := resource)]))
  }

  /** Copy the current assignment into the last epoch row. */
  function UpdateEpoch(s: Snapshot, a: Assignment): Outcome {
    if s.assignments == [] then Panic
    else
      var last := |s.assignments| - 1;
      Accept(s.(assignment := Some(a), assignments := s.assignments[last := s.assignments[last].(assignment := a)]))
  }

  /** End the current assignment, if there is one, and its epoch row. */
  function EndEpoch(s: Snapshot, e: Event, forced: bool): Outcome {
    if s.assignment.None? then Accept(s)
    else if s.assignments == [] then Panic
    else
      var ended := s.assignment.value.(state := Ended, endedAt := Some(e.createdAt));
      var last := |s.assignments| - 1;
      Accept(s.(
        project := s.project.(suggested := ended.agent),
        assignment := None,
        assignments := s.assignments[last :=
          s.assignments[last].(assignment := ended, endedBy := e.id, forced := forced)]))
  }

  function FinishClosing(s: Snapshot, e: Event): Outcome
    requires e.data.ClosedDown?
  {
    if s.project.lifecycle != Closing then Reject
    else
      match EndEpoch(s, e, e.data.forced)
      case Accept(t) =>
        Accept(t.(project := t.project.(lifecycle := Closed), claims := Release(t.claims, None, e)))
      case other => other
  }

  function Configure(s: Snapshot, e: Event): Outcome
    requires e.data.AssignmentConfiguring?
  {
    if s.project.lifecycle != Open || s.assignment.Some? || e.data.assignmentId == "" || e.data.agent == "" then Reject
    else
      var a := Assignment(e.data.assignmentId, e.data.agent, Configuring, "", e.createdAt, None);
      Accept(s.(
        project := s.project.(suggested := ""),
        assignment := Some(a),
        assignments := s.assignments + [AssignmentRow(a, e.id, "", false)]))
  }

  predicate IsCurrent(s: Snapshot, id: string, agent: string) {
    s.assignment.Some? && s.assignment.value.id == id && s.assignment.value.agent == agent
  }

  predicate ThreadComplete(t: Thread, threadId: string) {
    t.id == threadId && t.harness != "" && t.external != "" && t.directory != ""
  }

  /** Whether the last row with the thread's identifier belongs to this project and agent. */
  function ThreadKnown(threads: seq<ThreadRow>, id: string, project: string, agent: string): bool {
    if threads == [] then false
    else
      var last := threads[|threads| - 1];
      if last.id == id then last.project == project && last.agent == agent
      else ThreadKnown(threads[..|threads| - 1], id, project, agent)
  }

  function AddThread(s: Snapshot, t: Thread, agent: string, e: Event): Snapshot {
    if ThreadKnown(s.threads, t.id, s.project.id, agent) then s
    else
      s.(threads := s.threads + [ThreadRow(t.id, s.project.id, agent, t.harness, t.external, t.directory,
                                           if t.createdAt == 0 then e.createdAt else t.createdAt)])
  }

  function MakeRunnable(s: Snapshot, e: Event): Outcome
    requires e.data.AssignmentRunnable?
  {
    var d := e.data;
    if !IsCurrent(s, d.runnableId, d.runnableAgent) || s.assignment.value.state != Configuring || d.threadId == ""
    then Reject
    else
      match UpdateEpoch(s, s.assignment.value.(state := Runnable, thread := d.threadId))
      case Accept(t) =>
        if d.thread.None? then Accept(t)
        else if !ThreadComplete(d.thread.value, d.threadId) then Reject
        else Accept(AddThread(t, d.thread.value, d.runnableAgent, e))
      case other => other
  }

  function Block(s: Snapshot, e: Event): Outcome
    requires e.data.AssignmentBlocked?
  {
    if !IsCurrent(s, e.data.blockedId, e.data.blockedAgent) || s.assignment.value.state == Blocked then Reject
    else UpdateEpoch(s, s.assignment.value.(state := Blocked))
  }

  function EndAssignment(s: Snapshot, e: Event): Outcome
    requires e.data.AssignmentEnded?
  {
    if !IsCurrent(s, e.data.endedId, e.data.endedAgent) then Reject
    else EndEpoch(s, e, e.data.endForced)
  }

  predicate AcceptedBefore(acceptances: seq<Acceptance>, messageId: string, messageEventId: string) {
    exists i :: 0 <= i < |acceptances| &&
                (acceptances[i].messageId == messageId || acceptances[i].messageEventId == messageEventId)
  }

  function AcceptMessage(s: Snapshot, e: Event): Outcome
    requires e.data.MessageAccepted?
  {
    var d := e.data;
    if d.messageId == "" || d.messageEventId == "" || d.sequence != |s.acceptances| + 1 then Reject
    else if AcceptedBefore(s.acceptances, d.messageId, d.messageEventId) then Reject
    else
      Accept(s.(acceptances := s.acceptances +
                               [Acceptance(d.messageId, d.messageEventId, d.sequence, e.id, e.createdAt)]))
  }

  predicate IsAccepted(acceptances: seq<Acceptance>, messageId: string, sequence: int) {
    exists i :: 0 <= i < |acceptances| && acceptances[i].messageId == messageId && acceptances[i].sequence == sequence
  }

  predicate DispatchedBefore(dispatches: seq<Dispatch>, messageId: string, sequence: int) {
    exists i :: 0 <= i < |dispatches| && (dispatches[i].messageId == messageId || dispatches[i].sequence == sequence)
  }

  function DispatchMessage(s: Snapshot, e: Event): Outcome
    requires e.data.MessageDispatched?
  {
    var d := e.data;
    if d.dispatchedId == "" || d.toAssignment == "" || d.toThread == "" || d.toExternal == "" then Reject
    else if DispatchedBefore(s.dispatches, d.dispatchedId, d.dispatchedSequence) then Reject
    else if !IsAccepted(s.acceptances, d.dispatchedId, d.dispatchedSequence) then Reject
    else
      Accept(s.(dispatches := s.dispatches +
                              [Dispatch(d.dispatchedId, d.dispatchedSequence, d.toAssignment, d.toAgent, d.toThread,
                                        d.toExternal, e.id, e.createdAt)]))
  }

  /** The operations on an existing project, before the head moves. */
  function ApplyData(s: Snapshot, e: Event): Outcome {
    match e.data
    case Opened =>
      if s.project.lifecycle != Closed || s.project.archived then Reject
      else Accept(s.(project := s.project.(lifecycle := Open), claims := s.claims + ClaimAll(s.project.resources, e)))
    case ClosingStarted =>
      if s.project.lifecycle != Open then Reject else Accept(s.(project := s.project.(lifecycle := Closing)))
    case ClosedDown(_) => FinishClosing(s, e)
    case Archived =>
      if s.project.lifecycle != Closed || s.project.archived then Reject
      else Accept(s.(project := s.project.(archived := true)))
    case Unarchived =>
      if s.project.lifecycle != Closed || !s.project.archived then Reject
      else Accept(s.(project := s.project.(archived := false)))
    case MetadataUpdated(name, brief) =>
      if name == "" then Reject else Accept(s.(project := s.project.(name := name, brief := brief)))
    case ResourceAdded(_, _) => AddResource(s, e)
    case ResourceRemoved(_) => RemoveResource(s, e)
    case ResourceReplaced(_, _, _, _, _, _, _) => ReplaceResource(s, e)
    case PrimaryResourceChanged(id) =>
      if FindResource(s.project.resources, id) < 0 then Reject
      else Accept(s.(project := s.project.(primary := id)))
    case ResourceHealth(_, _, _, _) => CheckResource(s, e)
    case AssignmentConfiguring(_, _) => Configure(s, e)
    case AssignmentRunnable(_, _, _, _) => MakeRunnable(s, e)
    case AssignmentBlocked(_, _) => Block(s, e)
    case AssignmentEnded(_, _, _) => EndAssignment(s, e)
    case MessageAccepted(_, _, _) => AcceptMessage(s, e)
    case MessageDispatched(_, _, _, _, _, _) => DispatchMessage(s, e)
    case _ => Reject
  }

  /** Applying one event: creation is the root, every other event names the current head. */
  function Apply(s: Snapshot, e: Event): Outcome {
    if e.data.Missing? then Reject
    else if e.data.Created? then Create(s, e)
    else if s.project.id == "" || e.project != s.project.id || e.home != s.project.home ||
            e.previous != s.project.head then Reject
    else
      match ApplyData(s, e)
      case Accept(t) => Accept(t.(project := t.project.(head := e.id, updatedAt := e.createdAt)))
      case other => other
  }
}
