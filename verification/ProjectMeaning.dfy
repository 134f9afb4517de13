/**
 What a project's snapshot says, read off the events alone: each attribute is that of the last
 accepted event about it, and an event is accepted exactly when the snapshot leaves it legal.
 */
module ProjectMeaning {
  import opened Options
  import opened ProjectModel
  import opened ProjectInvariants
  import opened ProjectHistory

  // ------------------------------------------------------------------------ last event wins

  /** What an event can be about. */
  datatype Topic =
    | Archival | Lifetime | Naming
    | Configuration | Epoch | EpochState | EpochThread
    | Presence(id: string) | Introduction(id: string) | Health(id: string) | Claiming(id: string)

  predicate Introduces(d: Data, id: string) {
    || (d.Created? && exists i :: 0 <= i < |d.initial| && d.initial[i].id == id)
    || (d.ResourceAdded? && d.added.id == id)
    || (d.ResourceReplaced? && d.newId == id)
  }

  predicate Retires(d: Data, id: string) {
    (d.ResourceRemoved? && d.removedId == id) || (d.ResourceReplaced? && d.oldId == id)
  }

  predicate EndsEpoch(d: Data) {
    d.AssignmentEnded? || d.ClosedDown?
  }

  predicate About(d: Data, topic: Topic) {
    match topic
    case Archival => d.Archived? || d.Unarchived?
    case Lifetime => d.Created? || d.Opened? || d.ClosingStarted? || d.ClosedDown?
    case Naming => d.Created? || d.MetadataUpdated?
    case Configuration => d.AssignmentConfiguring?
    case Epoch => d.AssignmentConfiguring? || EndsEpoch(d)
    case EpochState => d.AssignmentConfiguring? || d.AssignmentRunnable? || d.AssignmentBlocked? || EndsEpoch(d)
    case EpochThread => d.AssignmentConfiguring? || d.AssignmentRunnable? || EndsEpoch(d)
    case Presence(id) => Introduces(d, id) || Retires(d, id)
    case Introduction(id) => Introduces(d, id)
    case Health(id) => Introduces(d, id) || (d.ResourceHealth? && d.checkedId == id)
    case Claiming(id) => Introduces(d, id) || d.Opened?
  }

  /** The last of the events that is about the topic. */
  function LastAbout(part: seq<Event>, topic: Topic): Option<Event> {
    if part == [] then None
    else if About(part[|part| - 1].data, topic) then Some(part[|part| - 1])
    else LastAbout(part[..|part| - 1], topic)
  }

  lemma LastStep(part: seq<Event>, e: Event, topic: Topic)
    ensures LastAbout(part + [e], topic) == if About(e.data, topic) then Some(e) else LastAbout(part, topic)
  {
    assert (part + [e])[..|part|] == part;
  }

  /** Event `i` is about the topic, and no later event is. */
  predicate LastAt(part: seq<Event>, topic: Topic, i: nat) {
    i < |part| && About(part[i].data, topic) && forall j | i < j < |part| :: !About(part[j].data, topic)
  }

  /** The last event about the topic is the one that no later event about it follows. */
  lemma {:induction false} LastMeans(part: seq<Event>, topic: Topic, i: nat)
    ensures LastAt(part, topic, i) ==> LastAbout(part, topic) == Some(part[i])
    ensures (forall j | 0 <= j < |part| :: !About(part[j].data, topic)) ==> LastAbout(part, topic).None?
  {
    if part != [] {
      var n := |part| - 1;
      LastMeans(part[..n], topic, i);
      assert forall j | 0 <= j < n :: part[..n][j] == part[j];
    }
  }

  // ------------------------------------------------------------- what each kind can change

  predicate IsResourceData(d: Data) {
    d.ResourceAdded? || d.ResourceRemoved? || d.ResourceReplaced? || d.ResourceHealth?
  }

  predicate IsAssignmentData(d: Data) {
    d.AssignmentConfiguring? || d.AssignmentRunnable? || d.AssignmentBlocked? || d.AssignmentEnded?
  }

  predicate IsMessageData(d: Data) {
    d.MessageAccepted? || d.MessageDispatched?
  }

  /** The record after an event that changes nothing but the record and, on opening, the claims. */
  function RecordAfter(p: Project, d: Data): Project {
    match d
    case Opened => p.(lifecycle := Open)
    case ClosingStarted => p.(lifecycle := Closing)
    case Archived => p.(archived := true)
    case Unarchived => p.(archived := false)
    case MetadataUpdated(name, brief) => p.(name := name, brief := brief)
    case PrimaryResourceChanged(id) => p.(primary := id)
    case _ => p
  }

  ghost predicate Framed(s: Snapshot, d: Data, t: Snapshot) {
    if IsResourceData(d) then
      t == s.(project := s.project.(resources := t.project.resources, primary := t.project.primary),
              resources := t.resources, claims := t.claims)
    else if IsAssignmentData(d) then
      t == s.(project := s.project.(suggested := t.project.suggested),
              assignment := t.assignment, assignments := t.assignments, threads := t.threads)
    else if d.ClosedDown? then
      t == s.(project := s.project.(suggested := t.project.suggested, lifecycle := Closed),
              assignment := t.assignment, assignments := t.assignments, claims := t.claims)
    else if IsMessageData(d) then t == s.(acceptances := t.acceptances, dispatches := t.dispatches)
    else t == s.(project := RecordAfter(s.project, d), claims := t.claims)
  }

  lemma ResourceFrame(s: Snapshot, e: Event)
    requires IsResourceData(e.data) && ApplyData(s, e).Accept?
    ensures Framed(s, e.data, ApplyData(s, e).next)
  {
  }

  lemma AssignmentFrame(s: Snapshot, e: Event)
    requires (IsAssignmentData(e.data) || e.data.ClosedDown?) && ApplyData(s, e).Accept?
    ensures Framed(s, e.data, ApplyData(s, e).next)
  {
  }

  lemma RecordFrame(s: Snapshot, e: Event)
    requires !IsResourceData(e.data) && !IsAssignmentData(e.data) && !e.data.ClosedDown?
    requires ApplyData(s, e).Accept?
    ensures Framed(s, e.data, ApplyData(s, e).next)
  {
  }

  lemma DataFrame(s: Snapshot, e: Event)
    requires ApplyData(s, e).Accept?
    ensures Framed(s, e.data, ApplyData(s, e).next)
    ensures !e.data.Created?
  {
    if IsResourceData(e.data) {
      ResourceFrame(s, e);
    } else if IsAssignmentData(e.data) || e.data.ClosedDown? {
      AssignmentFrame(s, e);
    } else {
      RecordFrame(s, e);
    }
  }

  // ------------------------------------------------------------------------ the record

  function LifecycleFrom(d: Data): Lifecycle
    requires About(d, Lifetime)
  {
    if d.Created? then (if d.open then Open else Closed)
    else if d.Opened? then Open
    else if d.ClosingStarted? then Closing
    else Closed
  }

  function NamesFrom(d: Data): (string, string)
    requires About(d, Naming)
  {
    if d.Created? then (d.name, d.brief) else (d.newName, d.newBrief)
  }

  /** The project is archived exactly when the last archival event archived it; its lifecycle,
      name and brief are those of the last event about them. */
  ghost predicate StandingTold(part: seq<Event>, p: Project) {
    var archival, life, naming := LastAbout(part, Archival), LastAbout(part, Lifetime), LastAbout(part, Naming);
    && (p.archived <==> archival.Some? && archival.value.data.Archived?)
    && life.Some? && About(life.value.data, Lifetime) && p.lifecycle == LifecycleFrom(life.value.data)
    && naming.Some? && About(naming.value.data, Naming) && (p.name, p.brief) == NamesFrom(naming.value.data)
  }

  /** Who the project is comes from the first event, and its head is the last one. */
  ghost predicate IdentityTold(part: seq<Event>, p: Project) {
    && part != [] && part[0].data.Created?
    && (p.id, p.home, p.createdAt) == (part[0].project, part[0].home, part[0].createdAt)
    && (p.mailbox, p.predecessor) == (part[0].data.mailbox, part[0].data.predecessor)
    && (p.head, p.updatedAt) == (part[|part| - 1].id, part[|part| - 1].createdAt)
  }

  lemma StandingAfter(s: Snapshot, d: Data, t: Snapshot)
    requires Framed(s, d, t) && !d.Created?
    ensures var p := t.project;
            && p.archived == (if About(d, Archival) then d.Archived? else s.project.archived)
            && p.lifecycle == (if About(d, Lifetime) then LifecycleFrom(d) else s.project.lifecycle)
            && (p.name, p.brief) == if About(d, Naming) then NamesFrom(d) else (s.project.name, s.project.brief)
    ensures (t.project.id, t.project.home, t.project.createdAt) == (s.project.id, s.project.home, s.project.createdAt)
    ensures (t.project.mailbox, t.project.predecessor) == (s.project.mailbox, s.project.predecessor)
  {
  }

  lemma StandingStep(part: seq<Event>, s: Snapshot, e: Event)
    requires (s == EMPTY && part == []) || (Sound(s) && StandingTold(part, s.project))
    requires Apply(s, e).Accept?
    ensures StandingTold(part + [e], Apply(s, e).next.project)
  {
    LastStep(part, e, Archival);
    LastStep(part, e, Lifetime);
    LastStep(part, e, Naming);
    if s != EMPTY {
      DataFrame(s, e);
      StandingAfter(s, e.data, ApplyData(s, e).next);
    }
  }

  lemma IdentityStep(part: seq<Event>, s: Snapshot, e: Event)
    requires (s == EMPTY && part == []) || (Sound(s) && IdentityTold(part, s.project))
    requires Apply(s, e).Accept?
    ensures IdentityTold(part + [e], Apply(s, e).next.project)
  {
    if s != EMPTY {
      DataFrame(s, e);
      StandingAfter(s, e.data, ApplyData(s, e).next);
    }
  }

  // --------------------------------------------------------------------- the assignment

  function StateFrom(d: Data): AssignmentState
    requires About(d, EpochState)
  {
    if d.AssignmentConfiguring? then Configuring
    else if d.AssignmentRunnable? then Runnable
    else if d.AssignmentBlocked? then AssignmentState.Blocked
    else Ended
  }

  function ThreadFrom(d: Data): string {
    if d.AssignmentRunnable? then d.threadId else ""
  }

  /** There is a current assignment exactly when a configuration came after every end; it is the
      one configured there, in the state and with the thread of the last event about either. */
  ghost predicate CurrentTold(part: seq<Event>, s: Snapshot) {
    var epoch, state, thread := LastAbout(part, Epoch), LastAbout(part, EpochState), LastAbout(part, EpochThread);
    && (s.assignment.Some? <==> epoch.Some? && epoch.value.data.AssignmentConfiguring?)
    && (s.assignment.Some? ==>
          && state.Some? && About(state.value.data, EpochState) && thread.Some?
          && s.assignment.value ==
               Assignment(epoch.value.data.assignmentId, epoch.value.data.agent, StateFrom(state.value.data),
                          ThreadFrom(thread.value.data), epoch.value.createdAt, None)
          && s.assignments != [] && s.assignments[|s.assignments| - 1].startedBy == epoch.value.id)
  }

  /** After an end, the agent of the last configuration is suggested; otherwise nobody is. */
  ghost predicate SuggestionTold(part: seq<Event>, p: Project) {
    var epoch, configured := LastAbout(part, Epoch), LastAbout(part, Configuration);
    p.suggested ==
      if epoch.Some? && EndsEpoch(epoch.value.data) && configured.Some? && configured.value.data.AssignmentConfiguring?
      then configured.value.data.agent else ""
  }

  lemma {:induction false} ConfigurationsAreEpochs(part: seq<Event>)
    ensures var epoch, configured := LastAbout(part, Epoch), LastAbout(part, Configuration);
            && (epoch.None? ==> configured.None?)
            && (epoch.Some? && epoch.value.data.AssignmentConfiguring? ==> configured == epoch)
            && (configured.Some? ==> configured.value.data.AssignmentConfiguring?)
            && (epoch.Some? ==> epoch.value.data.AssignmentConfiguring? || EndsEpoch(epoch.value.data))
  {
    if part != [] {
      ConfigurationsAreEpochs(part[..|part| - 1]);
    }
  }

  lemma OthersKeepAssignment(s: Snapshot, d: Data, t: Snapshot)
    requires Framed(s, d, t) && !About(d, EpochState)
    ensures t.assignment == s.assignment && t.assignments == s.assignments && t.project.suggested == s.project.suggested
  {
  }

  lemma MovesAssignment(s: Snapshot, e: Event)
    requires Sound(s) && ApplyData(s, e).Accept? && (e.data.AssignmentRunnable? || e.data.AssignmentBlocked?)
    ensures var t := ApplyData(s, e).next;
            && s.assignment.Some? && s.assignments != [] && |t.assignments| == |s.assignments|
            && t.assignment == Some(s.assignment.value.(
                 state := StateFrom(e.data),
                 thread := if e.data.AssignmentRunnable? then e.data.threadId else s.assignment.value.thread))
            && t.assignments[|t.assignments| - 1].startedBy == s.assignments[|s.assignments| - 1].startedBy
            && t.project.suggested == s.project.suggested
  {
  }

  lemma EndsAssignment(s: Snapshot, e: Event)
    requires Sound(s) && ApplyData(s, e).Accept? && EndsEpoch(e.data)
    ensures var t := ApplyData(s, e).next;
            && t.assignment.None?
            && t.project.suggested == if s.assignment.Some? then s.assignment.value.agent else s.project.suggested
  {
  }

  lemma StartsAssignment(s: Snapshot, e: Event)
    requires Sound(s) && ApplyData(s, e).Accept? && e.data.AssignmentConfiguring?
    ensures var t := ApplyData(s, e).next;
            && t.assignment == Some(Assignment(e.data.assignmentId, e.data.agent, Configuring, "", e.createdAt, None))
            && |t.assignments| == |s.assignments| + 1 && t.assignments[|s.assignments|].startedBy == e.id
            && t.project.suggested == ""
  {
  }

  lemma AssignmentData(part: seq<Event>, s: Snapshot, e: Event)
    requires Sound(s) && CurrentTold(part, s) && SuggestionTold(part, s.project) && ApplyData(s, e).Accept?
    ensures CurrentTold(part + [e], ApplyData(s, e).next)
    ensures SuggestionTold(part + [e], ApplyData(s, e).next.project)
  {
    ConfigurationsAreEpochs(part);
    LastStep(part, e, Epoch);
    LastStep(part, e, EpochState);
    LastStep(part, e, EpochThread);
    LastStep(part, e, Configuration);
    if !About(e.data, EpochState) {
      DataFrame(s, e);
      OthersKeepAssignment(s, e.data, ApplyData(s, e).next);
    } else if e.data.AssignmentConfiguring? {
      StartsAssignment(s, e);
    } else if EndsEpoch(e.data) {
      EndsAssignment(s, e);
    } else {
      MovesAssignment(s, e);
    }
  }

  lemma AssignmentStep(part: seq<Event>, s: Snapshot, e: Event)
    requires (s == EMPTY && part == []) || (Sound(s) && CurrentTold(part, s) && SuggestionTold(part, s.project))
    requires Apply(s, e).Accept?
    ensures CurrentTold(part + [e], Apply(s, e).next)
    ensures SuggestionTold(part + [e], Apply(s, e).next.project)
  {
    if s == EMPTY {
      LastStep(part, e, Epoch);
      LastStep(part, e, Configuration);
    } else {
      AssignmentData(part, s, e);
    }
  }

  // ----------------------------------------------------------------- messages and threads

  function AcceptancesOf(part: seq<Event>): seq<Acceptance> {
    if part == [] then []
    else
      var e := part[|part| - 1];
      AcceptancesOf(part[..|part| - 1]) +
      if e.data.MessageAccepted?
      then [Acceptance(e.data.messageId, e.data.messageEventId, e.data.sequence, e.id, e.createdAt)] else []
  }

  function DispatchesOf(part: seq<Event>): seq<Dispatch> {
    if part == [] then []
    else
      var e := part[|part| - 1];
      DispatchesOf(part[..|part| - 1]) +
      if e.data.MessageDispatched?
      then [Dispatch(e.data.dispatchedId, e.data.dispatchedSequence, e.data.toAssignment, e.data.toAgent,
                     e.data.toThread, e.data.toExternal, e.id, e.createdAt)] else []
  }

  /** Every acceptance and dispatch is listed once, in order, as its event states it. */
  ghost predicate MessagesTold(part: seq<Event>, s: Snapshot) {
    s.acceptances == AcceptancesOf(part) && s.dispatches == DispatchesOf(part)
  }

  lemma MessagesKept(s: Snapshot, d: Data, t: Snapshot)
    requires Framed(s, d, t)
    ensures !IsMessageData(d) ==> t.acceptances == s.acceptances && t.dispatches == s.dispatches
    ensures !IsAssignmentData(d) ==> t.threads == s.threads
  {
  }

  lemma MessagesData(s: Snapshot, e: Event)
    requires ApplyData(s, e).Accept?
    ensures var t := ApplyData(s, e).next;
            && (!e.data.MessageAccepted? ==> t.acceptances == s.acceptances)
            && (!e.data.MessageDispatched? ==> t.dispatches == s.dispatches)
            && (!e.data.AssignmentRunnable? ==> t.threads == s.threads)
  {
    if !IsMessageData(e.data) && !IsAssignmentData(e.data) {
      DataFrame(s, e);
      MessagesKept(s, e.data, ApplyData(s, e).next);
    }
  }

  lemma MessagesStep(part: seq<Event>, s: Snapshot, e: Event)
    requires (s == EMPTY && part == []) || (Sound(s) && MessagesTold(part, s))
    requires Apply(s, e).Accept?
    ensures MessagesTold(part + [e], Apply(s, e).next)
  {
    assert (part + [e])[..|part|] == part;
    if s != EMPTY {
      MessagesData(s, e);
    }
  }

  /** The event carries the thread that the row describes. */
  predicate Carries(e: Event, row: ThreadRow) {
    && e.data.AssignmentRunnable? && e.data.thread.Some?
    && var t := e.data.thread.value;
    row == ThreadRow(e.data.threadId, e.project, e.data.runnableAgent, t.harness, t.external, t.directory,
                     if t.createdAt == 0 then e.createdAt else t.createdAt)
  }

  predicate Sourced(part: seq<Event>, row: ThreadRow) {
    exists e :: e in part && Carries(e, row)
  }

  predicate Enrolled(threads: seq<ThreadRow>, e: Event) {
    exists row :: row in threads && Names(row, e)
  }

  /** Every thread row is that of an accepted event, and every thread that an accepted event
      carries has a row for its project and agent. */
  ghost predicate ThreadsTold(part: seq<Event>, threads: seq<ThreadRow>) {
    && (forall row | row in threads :: Sourced(part, row))
    && (forall e | e in part && e.data.AssignmentRunnable? && e.data.thread.Some? :: Enrolled(threads, e))
  }

  predicate Names(row: ThreadRow, e: Event) {
    && e.data.AssignmentRunnable?
    && (row.id, row.project, row.agent) == (e.data.threadId, e.project, e.data.runnableAgent)
  }

  lemma {:induction false} KnownThread(threads: seq<ThreadRow>, id: string, project: string, agent: string)
    requires ThreadKnown(threads, id, project, agent)
    ensures exists row :: row in threads && (row.id, row.project, row.agent) == (id, project, agent)
  {
    var n := |threads| - 1;
    if threads[n].id != id {
      KnownThread(threads[..n], id, project, agent);
      var row :| row in threads[..n] && (row.id, row.project, row.agent) == (id, project, agent);
      assert row in threads;
    } else {
      assert threads[n] in threads;
    }
  }

  lemma RunnableThreads(s: Snapshot, e: Event)
    requires e.data.AssignmentRunnable? && ApplyData(s, e).Accept? && e.project == s.project.id
    ensures var t := ApplyData(s, e).next;
            && s.threads <= t.threads
            && (forall row | row in t.threads && row !in s.threads :: Carries(e, row))
            && (e.data.thread.Some? ==> Enrolled(t.threads, e))
  {
    var t := ApplyData(s, e).next;
    if e.data.thread.Some? {
      if ThreadKnown(s.threads, e.data.threadId, s.project.id, e.data.runnableAgent) {
        KnownThread(s.threads, e.data.threadId, s.project.id, e.data.runnableAgent);
        var row :| row in s.threads && (row.id, row.project, row.agent) ==
                                       (e.data.threadId, s.project.id, e.data.runnableAgent);
        assert Names(row, e);
      } else {
        assert t.threads[|s.threads|] in t.threads && Names(t.threads[|s.threads|], e);
      }
    }
  }

  lemma ThreadsGrow(part: seq<Event>, before: seq<ThreadRow>, after: seq<ThreadRow>, e: Event)
    requires ThreadsTold(part, before) && before <= after
    requires forall row | row in after && row !in before :: Carries(e, row)
    requires e.data.AssignmentRunnable? && e.data.thread.Some? ==> Enrolled(after, e)
    ensures ThreadsTold(part + [e], after)
  {
    var more := part + [e];
    forall row | row in after
      ensures Sourced(more, row)
    {
      if row in before {
        var x :| x in part && Carries(x, row);
        assert x in more;
      } else {
        assert e in more;
      }
    }
    forall x | x in more && x.data.AssignmentRunnable? && x.data.thread.Some?
      ensures Enrolled(after, x)
    {
      if x in part {
        var row :| row in before && Names(row, x);
        assert row in after;
      }
    }
  }

  lemma ThreadsStep(part: seq<Event>, s: Snapshot, e: Event)
    requires (s == EMPTY && part == []) || (Sound(s) && ThreadsTold(part, s.threads))
    requires Apply(s, e).Accept?
    ensures ThreadsTold(part + [e], Apply(s, e).next.threads)
  {
    if s != EMPTY {
      if e.data.AssignmentRunnable? {
        RunnableThreads(s, e);
      } else {
        MessagesData(s, e);
      }
    }
    ThreadsGrow(part, s.threads, Apply(s, e).next.threads, e);
  }
}
