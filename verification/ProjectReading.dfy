/**
 Over every history, with rejected events anywhere in it: what the final snapshot says is what
 the accepted events say.
 */
module ProjectReading {
  import opened Options
  import opened ProjectModel
  import opened ProjectInvariants
  import opened ProjectHistory
  import opened ProjectAudit
  import opened ProjectMeaning
  import opened ProjectResources
  import opened ProjectRows
  import opened ProjectLegality

  ghost predicate RecordTold(part: seq<Event>, s: Snapshot) {
    && StandingTold(part, s.project) && IdentityTold(part, s.project)
    && CurrentTold(part, s) && SuggestionTold(part, s.project)
    && MessagesTold(part, s) && ThreadsTold(part, s.threads)
  }

  ghost predicate HoldingsTold(part: seq<Event>, s: Snapshot) {
    && PresenceTold(part, ResourceIds(s.project.resources))
    && ResourcesTold(part, s.project.home, s.project.resources)
    && OrderTold(part, s.project)
    && RowsTold(part, s.resources) && ClaimsTold(part, s.claims)
  }

  lemma RecordStep(part: seq<Event>, s: Snapshot, e: Event)
    requires (s == EMPTY && part == []) || (Sound(s) && RecordTold(part, s))
    requires Apply(s, e).Accept?
    ensures RecordTold(part + [e], Apply(s, e).next)
  {
    StandingStep(part, s, e);
    IdentityStep(part, s, e);
    AssignmentStep(part, s, e);
    MessagesStep(part, s, e);
    ThreadsStep(part, s, e);
  }

  lemma HoldingsStep(part: seq<Event>, s: Snapshot, e: Event)
    requires (s == EMPTY && part == []) || (Sound(s) && HoldingsTold(part, s))
    requires Apply(s, e).Accept? && Extends(s, Apply(s, e).next)
    ensures HoldingsTold(part + [e], Apply(s, e).next)
  {
    PresenceStep(part, s, e);
    ResourcesStep(part, s, e);
    OrderStep(part, s, e);
    RowsStep(part, s, e);
  }

  /** The history has accepted nothing yet, or its snapshot is sound. */
  lemma Begun(events: seq<Event>)
    requires forall x | x in events :: ProperEvent(x)
    ensures (Replay(events) == EMPTY && AcceptedPart(events) == []) ||
            (Sound(Replay(events)) && AcceptedPart(events) != [])
    decreases |events|
  {
    if events != [] {
      var n := |events| - 1;
      assert forall x | x in events[..n] + [events[n]] :: x in events;
      Begun(events[..n]);
      PartStep(events);
      HistoriesAreSound(events[..n], events[n]);
      StepIsSound(Replay(events[..n]), events[n]);
    }
  }

  /** Over every history: archived exactly if the last archival event archived; the lifecycle,
      name and brief of the last events about them; the identity of the first event and the head
      of the last; the current assignment, its state and thread, and the suggested agent, by the
      last events about them; and every acceptance, dispatch and thread as its event states it. */
  lemma {:induction false} RecordFollowsEvents(events: seq<Event>)
    requires forall x | x in events :: ProperEvent(x)
    ensures AcceptedPart(events) == [] ==> Replay(events) == EMPTY
    ensures AcceptedPart(events) != [] ==> RecordTold(AcceptedPart(events), Replay(events))
  {
    Begun(events);
    if events != [] {
      var n := |events| - 1;
      assert forall x | x in events[..n] :: x in events;
      Begun(events[..n]);
      RecordFollowsEvents(events[..n]);
      PartStep(events);
      if AcceptedAt(events, n) {
        RecordStep(AcceptedPart(events[..n]), Replay(events[..n]), events[n]);
      }
    }
  }

  /** Over every history: a resource is current exactly if it was introduced after it was last
      retired; it has the kind and paths of its last introduction and the health of its last
      introduction or check; the order and the primary resource are those the events leave; and
      live rows and held claims are stamped by the events they come from. */
  lemma {:induction false} HoldingsFollowEvents(events: seq<Event>)
    requires forall x | x in events :: ProperEvent(x)
    ensures AcceptedPart(events) != [] ==> HoldingsTold(AcceptedPart(events), Replay(events))
  {
    if events != [] {
      var n := |events| - 1;
      assert forall x | x in events[..n] :: x in events;
      Begun(events[..n]);
      HoldingsFollowEvents(events[..n]);
      PartStep(events);
      if AcceptedAt(events, n) {
        RowsAreNeverTakenBack(events, n);
        HoldingsStep(AcceptedPart(events[..n]), Replay(events[..n]), events[n]);
      }
    }
  }

  /** Over every history, the next event is accepted exactly when the snapshot leaves it legal. */
  lemma AcceptedWhenLegal(events: seq<Event>, e: Event)
    requires forall x | x in events + [e] :: ProperEvent(x)
    ensures Apply(Replay(events), e).Accept? <==> Legal(Replay(events), e)
  {
    HistoriesAreSound(events, e);
    AcceptsExactly(Replay(events), e);
  }

  // ---------------------------------------------------------------------- ended epochs

  predicate ForcedBy(d: Data) {
    (d.AssignmentEnded? && d.endForced) || (d.ClosedDown? && d.forced)
  }

  /** Row `i` is the assignment that was current after the first `n` events, started by the
      configuration that was last then; it is either still current or was ended by event `n`. */
  ghost predicate EpochTold(events: seq<Event>, i: nat, n: nat)
    requires i < |Replay(events).assignments|
  {
    && n <= |events|
    && var s, row := Replay(events[..n]), Replay(events).assignments[i];
    var started := LastAbout(AcceptedPart(events[..n]), Epoch);
    && |s.assignments| == i + 1 && s.assignment.Some?
    && started.Some? && started.value.data.AssignmentConfiguring? && row.startedBy == started.value.id
    && if row.endedBy == "" then n == |events| && row.assignment == s.assignment.value
       else
         && n < |events| && AcceptedAt(events, n) && EndsEpoch(events[n].data)
         && (row.endedBy, row.forced) == (events[n].id, ForcedBy(events[n].data))
         && row.assignment == s.assignment.value.(state := Ended, endedAt := Some(events[n].createdAt))
  }

  lemma EndsRow(s: Snapshot, e: Event, i: nat)
    requires Sound(s) && ApplyData(s, e).Accept? && i < |ApplyData(s, e).next.assignments|
    requires ApplyData(s, e).next.assignments[i].endedBy != ""
    requires i < |s.assignments| ==> s.assignments[i].endedBy == ""
    ensures EndsEpoch(e.data) && i == |s.assignments| - 1 && s.assignment.Some?
    ensures ApplyData(s, e).next.assignments[i] ==
            AssignmentRow(s.assignment.value.(state := Ended, endedAt := Some(e.createdAt)), s.assignments[i].startedBy,
                          e.id, ForcedBy(e.data))
  {
    var t := ApplyData(s, e).next;
    if !About(e.data, EpochState) {
      DataFrame(s, e);
      OthersKeepAssignment(s, e.data, t);
    } else if e.data.AssignmentRunnable? || e.data.AssignmentBlocked? {
      UpdatedRow(s, e, i);
    } else if EndsEpoch(e.data) {
      EndedRow(s, e);
    }
  }

  lemma UpdatedRow(s: Snapshot, e: Event, i: nat)
    requires Sound(s) && ApplyData(s, e).Accept? && (e.data.AssignmentRunnable? || e.data.AssignmentBlocked?)
    requires i < |ApplyData(s, e).next.assignments|
    ensures |ApplyData(s, e).next.assignments| == |s.assignments|
    ensures ApplyData(s, e).next.assignments[i].endedBy == s.assignments[i].endedBy
  {
    var a := if e.data.AssignmentBlocked? then s.assignment.value.(state := AssignmentState.Blocked)
             else s.assignment.value.(state := Runnable, thread := e.data.threadId);
    assert ApplyData(s, e).next.assignments == UpdateEpoch(s, a).next.assignments;
  }

  lemma EndedRow(s: Snapshot, e: Event)
    requires Sound(s) && ApplyData(s, e).Accept? && EndsEpoch(e.data)
    ensures var t, last := ApplyData(s, e).next, |s.assignments| - 1;
            if s.assignment.None? then t.assignments == s.assignments
            else
              && last >= 0
              && t.assignments == s.assignments[last :=
                   AssignmentRow(s.assignment.value.(state := Ended, endedAt := Some(e.createdAt)),
                                 s.assignments[last].startedBy, e.id, ForcedBy(e.data))]
  {
  }

  lemma CurrentFollows(events: seq<Event>)
    requires forall x | x in events :: ProperEvent(x)
    ensures Replay(events) == EMPTY || (Sound(Replay(events)) && CurrentTold(AcceptedPart(events), Replay(events)))
  {
    Begun(events);
    RecordFollowsEvents(events);
  }

  lemma OpenRow(part: seq<Event>, s: Snapshot, i: nat)
    requires Sound(s) && CurrentTold(part, s) && i < |s.assignments| && s.assignments[i].endedBy == ""
    ensures |s.assignments| == i + 1 && s.assignment.Some? && s.assignments[i].assignment == s.assignment.value
    ensures var started := LastAbout(part, Epoch);
            started.Some? && started.value.data.AssignmentConfiguring? && s.assignments[i].startedBy == started.value.id
  {
  }

  lemma CurrentEpoch(events: seq<Event>, i: nat)
    requires forall x | x in events :: ProperEvent(x)
    requires i < |Replay(events).assignments| && Replay(events).assignments[i].endedBy == ""
    ensures EpochTold(events, i, |events|)
  {
    CurrentFollows(events);
    OpenRow(AcceptedPart(events), Replay(events), i);
    assert events[..|events|] == events;
  }

  lemma RowJustEnded(part: seq<Event>, s: Snapshot, e: Event, i: nat)
    requires Sound(s) && CurrentTold(part, s) && Apply(s, e).Accept? && i < |Apply(s, e).next.assignments|
    requires Apply(s, e).next.assignments[i].endedBy != "" && (i < |s.assignments| ==> s.assignments[i].endedBy == "")
    ensures var row, started := Apply(s, e).next.assignments[i], LastAbout(part, Epoch);
            && EndsEpoch(e.data) && |s.assignments| == i + 1 && s.assignment.Some?
            && started.Some? && started.value.data.AssignmentConfiguring?
            && row == AssignmentRow(s.assignment.value.(state := Ended, endedAt := Some(e.createdAt)), started.value.id,
                                    e.id, ForcedBy(e.data))
  {
    assert ApplyData(s, e).Accept? && Apply(s, e).next.assignments == ApplyData(s, e).next.assignments;
    EndsRow(s, e, i);
    OpenRow(part, s, i);
  }

  lemma CreationHasNoEpochs(e: Event)
    requires Apply(EMPTY, e).Accept?
    ensures Apply(EMPTY, e).next.assignments == []
  {
  }

  lemma EpochJustEnded(events: seq<Event>, i: nat)
    requires events != [] && forall x | x in events :: ProperEvent(x)
    requires i < |Replay(events).assignments| && Replay(events).assignments[i].endedBy != ""
    requires var s := Replay(events[..|events| - 1]);
             AcceptedAt(events, |events| - 1) && (i < |s.assignments| ==> s.assignments[i].endedBy == "")
    ensures EpochTold(events, i, |events| - 1)
  {
    var n := |events| - 1;
    var s := Replay(events[..n]);
    assert forall x | x in events[..n] :: x in events;
    CurrentFollows(events[..n]);
    assert s != EMPTY by {
      if s == EMPTY {
        CreationHasNoEpochs(events[n]);
      }
    }
    RowJustEnded(AcceptedPart(events[..n]), s, events[n], i);
  }

  lemma EpochStaysTold(events: seq<Event>, i: nat, n: nat)
    requires events != []
    requires var front := events[..|events| - 1];
             && i < |Replay(front).assignments| && Replay(front).assignments[i].endedBy != ""
             && EpochTold(front, i, n)
             && i < |Replay(events).assignments| && Replay(events).assignments[i] == Replay(front).assignments[i]
    ensures EpochTold(events, i, n)
  {
    var front := events[..|events| - 1];
    assert front[..n] == events[..n] && front[n] == events[n];
  }

  /** Over every history, each epoch row is told by the events: who was configured, what it
      had become, and which event ended it. */
  lemma {:induction false} EveryEpochIsTold(events: seq<Event>, i: nat) returns (n: nat)
    requires i < |Replay(events).assignments| && forall x | x in events :: ProperEvent(x)
    ensures EpochTold(events, i, n)
  {
    if Replay(events).assignments[i].endedBy == "" {
      n := |events|;
      CurrentEpoch(events, i);
    } else {
      var last := |events| - 1;
      var front, s := events[..last], Replay(events[..last]);
      assert forall x | x in front :: x in events;
      EpochsNeverMoveBack(events, last);
      PartStep(events);
      if i < |s.assignments| && s.assignments[i].endedBy != "" {
        n := EveryEpochIsTold(front, i);
        EpochStaysTold(events, i, n);
      } else {
        n := last;
        EpochJustEnded(events, i);
      }
    }
  }
}
