/**
 Which events a project accepts: exactly those that its snapshot leaves legal.
 */
module ProjectLegality {
  import opened Options
  import opened ProjectModel
  import opened ProjectInvariants

  /** What the snapshot lets happen to the project itself. */
  predicate LegalRecord(s: Snapshot, d: Data) {
    && (d.Opened? ==> s.project.lifecycle == Closed && !s.project.archived)
    && (d.ClosingStarted? ==> s.project.lifecycle == Open)
    && (d.ClosedDown? ==> s.project.lifecycle == Closing)
    && (d.Archived? ==> s.project.lifecycle == Closed && !s.project.archived)
    && (d.Unarchived? ==> s.project.archived)
    && (d.MetadataUpdated? ==> d.newName != "")
    && (d.PrimaryResourceChanged? ==> d.primaryId in ResourceIds(s.project.resources))
  }

  predicate LegalResource(s: Snapshot, d: Data) {
    && (d.ResourceAdded? ==>
          && d.added.id != "" && d.added.kind != "" && d.added.canonical != ""
          && d.added.id !in ResourceIds(s.project.resources))
    && (d.ResourceRemoved? ==> d.removedId in ResourceIds(s.project.resources))
    && (d.ResourceReplaced? ==>
          && d.oldId in ResourceIds(s.project.resources)
          && d.newId != "" && d.newId !in ResourceIds(s.project.resources))
    && (d.ResourceHealth? ==> d.checkedId in ResourceIds(s.project.resources))
  }

  predicate CurrentIs(s: Snapshot, id: string, agent: string) {
    s.assignment.Some? && (s.assignment.value.id, s.assignment.value.agent) == (id, agent)
  }

  predicate LegalAssignment(s: Snapshot, d: Data) {
    && (d.AssignmentConfiguring? ==>
          s.project.lifecycle == Open && s.assignment.None? && d.assignmentId != "" && d.agent != "")
    && (d.AssignmentRunnable? ==>
          && CurrentIs(s, d.runnableId, d.runnableAgent) && s.assignment.value.state == Configuring && d.threadId != ""
          && (d.thread.Some? ==>
                && d.thread.value.id == d.threadId && d.thread.value.harness != ""
                && d.thread.value.external != "" && d.thread.value.directory != ""))
    && (d.AssignmentBlocked? ==>
          CurrentIs(s, d.blockedId, d.blockedAgent) && s.assignment.value.state != AssignmentState.Blocked)
    && (d.AssignmentEnded? ==> CurrentIs(s, d.endedId, d.endedAgent))
  }

  predicate LegalMessage(s: Snapshot, d: Data) {
    && (d.MessageAccepted? ==>
          && d.messageId != "" && d.messageEventId != "" && d.sequence == |s.acceptances| + 1
          && forall i | 0 <= i < |s.acceptances| ::
               s.acceptances[i].messageId != d.messageId && s.acceptances[i].messageEventId != d.messageEventId)
    && (d.MessageDispatched? ==>
          && d.dispatchedId != "" && d.toAssignment != "" && d.toThread != "" && d.toExternal != ""
          && 1 <= d.dispatchedSequence <= |s.acceptances|
          && s.acceptances[d.dispatchedSequence - 1].messageId == d.dispatchedId
          && forall i | 0 <= i < |s.dispatches| :: s.dispatches[i].sequence != d.dispatchedSequence)
  }

  predicate LegalData(s: Snapshot, d: Data) {
    LegalRecord(s, d) && LegalResource(s, d) && LegalAssignment(s, d) && LegalMessage(s, d)
  }

  predicate LegalCreation(e: Event) {
    && e.data.Created? && e.previous == ""
    && e.project != "" && e.home != "" && e.data.mailbox != "" && e.data.name != ""
    && (e.data.initial != [] ==> 0 <= e.data.primaryPath < |e.data.initial|)
  }

  /** The event may follow the snapshot. */
  predicate Legal(s: Snapshot, e: Event) {
    if s == EMPTY then LegalCreation(e)
    else
      && !e.data.Created? && !e.data.Missing? && !e.data.Unsupported?
      && (e.project, e.home, e.previous) == (s.project.id, s.project.home, s.project.head)
      && LegalData(s, e.data)
  }

  /** Looking the identifier up finds it exactly when it is current, in both lists. */
  predicate FoundRight(s: Snapshot, id: string) {
    && (FindResource(s.project.resources, id) >= 0 <==> id in ResourceIds(s.project.resources))
    && (FindResource(s.project.resources, id) >= 0 ==> FindLiveRow(s.resources, id) >= 0)
  }

  lemma FindsRight(s: Snapshot, id: string)
    requires Sound(s)
    ensures FoundRight(s, id)
  {
    LookupNeverMisses(s.project.resources, s.resources, id);
  }

  lemma RemoveLegal(s: Snapshot, e: Event)
    requires e.data.ResourceRemoved? && FoundRight(s, e.data.removedId)
    ensures ApplyData(s, e).Accept? <==> LegalData(s, e.data)
  {
  }

  lemma ReplaceLegal(s: Snapshot, e: Event)
    requires e.data.ResourceReplaced? && FoundRight(s, e.data.oldId) && FoundRight(s, e.data.newId)
    ensures ApplyData(s, e).Accept? <==> LegalData(s, e.data)
  {
  }

  lemma CheckLegal(s: Snapshot, e: Event)
    requires e.data.ResourceHealth? && FoundRight(s, e.data.checkedId)
    ensures ApplyData(s, e).Accept? <==> LegalData(s, e.data)
  {
  }

  lemma AddLegal(s: Snapshot, e: Event)
    requires e.data.ResourceAdded? && FoundRight(s, e.data.added.id)
    ensures ApplyData(s, e).Accept? <==> LegalData(s, e.data)
  {
  }

  lemma PrimaryLegal(s: Snapshot, e: Event)
    requires e.data.PrimaryResourceChanged? && FoundRight(s, e.data.primaryId)
    ensures ApplyData(s, e).Accept? <==> LegalData(s, e.data)
  {
  }

  lemma ResourceLegal(s: Snapshot, e: Event)
    requires Sound(s)
    requires e.data.ResourceAdded? || e.data.ResourceRemoved? || e.data.ResourceReplaced? || e.data.ResourceHealth? ||
             e.data.PrimaryResourceChanged?
    ensures ApplyData(s, e).Accept? <==> LegalData(s, e.data)
  {
    match e.data
    case ResourceAdded(r, _) =>
      FindsRight(s, r.id);
      AddLegal(s, e);
    case ResourceRemoved(id) =>
      FindsRight(s, id);
      RemoveLegal(s, e);
    case ResourceReplaced(oldId, newId, _, _, _, _, _) =>
      FindsRight(s, oldId);
      FindsRight(s, newId);
      ReplaceLegal(s, e);
    case ResourceHealth(id, _, _, _) =>
      FindsRight(s, id);
      CheckLegal(s, e);
    case PrimaryResourceChanged(id) =>
      FindsRight(s, id);
      PrimaryLegal(s, e);
  }

  lemma RecordLegal(s: Snapshot, e: Event)
    requires Sound(s)
    requires e.data.Opened? || e.data.ClosingStarted? || e.data.ClosedDown? || e.data.Archived? || e.data.Unarchived? ||
             e.data.MetadataUpdated?
    ensures ApplyData(s, e).Accept? <==> LegalData(s, e.data)
  {
  }

  lemma AssignmentLegal(s: Snapshot, e: Event)
    requires Sound(s)
    requires e.data.AssignmentConfiguring? || e.data.AssignmentRunnable? || e.data.AssignmentBlocked? ||
             e.data.AssignmentEnded?
    ensures ApplyData(s, e).Accept? <==> LegalData(s, e.data)
  {
  }

  lemma MessageLegal(s: Snapshot, e: Event)
    requires Sound(s) && (e.data.MessageAccepted? || e.data.MessageDispatched?)
    ensures ApplyData(s, e).Accept? <==> LegalData(s, e.data)
  {
    if e.data.MessageDispatched? {
      DispatchLegal(s, e.data.dispatchedId, e.data.dispatchedSequence);
    }
  }

  lemma DispatchLegal(s: Snapshot, id: string, sequence: int)
    requires Sound(s)
    ensures IsAccepted(s.acceptances, id, sequence) && !DispatchedBefore(s.dispatches, id, sequence) <==>
            && 1 <= sequence <= |s.acceptances| && s.acceptances[sequence - 1].messageId == id
            && forall i | 0 <= i < |s.dispatches| :: s.dispatches[i].sequence != sequence
  {
    if 1 <= sequence <= |s.acceptances| && s.acceptances[sequence - 1].messageId == id {
      assert s.acceptances[sequence - 1].sequence == sequence;
      forall i | 0 <= i < |s.dispatches| && s.dispatches[i].messageId == id
        ensures s.dispatches[i].sequence == sequence
      {
        assert IsAccepted(s.acceptances, s.dispatches[i].messageId, s.dispatches[i].sequence);
      }
    }
  }

  lemma DataLegal(s: Snapshot, e: Event)
    requires Sound(s) && !e.data.Created? && !e.data.Missing? && !e.data.Unsupported?
    ensures ApplyData(s, e).Accept? <==> LegalData(s, e.data)
  {
    if e.data.ResourceAdded? || e.data.ResourceRemoved? || e.data.ResourceReplaced? || e.data.ResourceHealth? ||
       e.data.PrimaryResourceChanged? {
      ResourceLegal(s, e);
    } else if e.data.MessageAccepted? || e.data.MessageDispatched? {
      MessageLegal(s, e);
    } else if e.data.AssignmentConfiguring? || e.data.AssignmentRunnable? || e.data.AssignmentBlocked? ||
              e.data.AssignmentEnded? {
      AssignmentLegal(s, e);
    } else {
      RecordLegal(s, e);
    }
  }

  /** Which events a sound or empty snapshot accepts. */
  lemma AcceptsExactly(s: Snapshot, e: Event)
    requires s == EMPTY || Sound(s)
    ensures Apply(s, e).Accept? <==> Legal(s, e)
  {
    if s != EMPTY && !e.data.Created? && !e.data.Missing? {
      if !e.data.Unsupported? {
        DataLegal(s, e);
      }
      AcceptLinked(s, e);
    }
  }

  lemma AcceptLinked(s: Snapshot, e: Event)
    requires s.project.id != "" && !e.data.Created? && !e.data.Missing?
    ensures Apply(s, e).Accept? <==>
            (e.project, e.home, e.previous) == (s.project.id, s.project.home, s.project.head) && ApplyData(s, e).Accept?
    ensures e.data.Unsupported? ==> !ApplyData(s, e).Accept?
  {
  }
}
