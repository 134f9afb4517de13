/**
 Whole project histories: what holds after any sequence of events, how assignment epochs
 evolve, and why an accepted set of events has only one order.
 */
module ProjectHistory {
  import opened ProjectModel
  import opened ProjectInvariants

  /** Apply the events in turn; a rejected event leaves the snapshot as it was. */
  ghost function Replay(events: seq<Event>): Snapshot {
    if events == [] then EMPTY
    else
      var s := Replay(events[..|events| - 1]);
      var outcome := Apply(s, events[|events| - 1]);
      if outcome.Accept? then outcome.next else s
  }

  /** Every event of the sequence is accepted in its turn. */
  ghost predicate AllAccepted(events: seq<Event>) {
    forall i | 0 <= i < |events| :: Apply(Replay(events[..i]), events[i]).Accept?
  }

  ghost predicate UniqueIds(events: seq<Event>) {
    && (forall i | 0 <= i < |events| :: events[i].id != "")
    && (forall i, j | 0 <= i < j < |events| :: events[i].id != events[j].id)
  }

  /** After any history, accepted or not event by event, the snapshot is empty or sound, and
      the next event is accepted or rejected without a run-time failure. */
  lemma {:induction false} HistoriesAreSound(events: seq<Event>, e: Event)
    requires forall x | x in events + [e] :: ProperEvent(x)
    ensures Replay(events) == EMPTY || Sound(Replay(events))
    ensures !Apply(Replay(events), e).Panic?
  {
    if events != [] {
      var n := |events| - 1;
      assert events[n] in events + [e] && forall x | x in events[..n] + [events[n]] :: x in events + [e];
      HistoriesAreSound(events[..n], events[n]);
      StepIsSound(Replay(events[..n]), events[n]);
    }
    assert e in events + [e];
    StepIsSound(Replay(events), e);
  }

  lemma StepIsSound(s: Snapshot, e: Event)
    requires (s == EMPTY || Sound(s)) && ProperEvent(e)
    ensures !Apply(s, e).Panic?
    ensures Apply(s, e).Accept? ==> Sound(Apply(s, e).next)
  {
    if s == EMPTY {
      if e.data.Created? {
        CreateKeeps(e);
      }
    } else {
      ApplyKeepsSound(s, e);
    }
  }

  // ---------------------------------------------------------------------------- epochs

  function Rank(state: AssignmentState): nat {
    match state
    case Configuring => 0
    case Runnable => 1
    case Blocked => 2
    case Ended => 3
  }

  /** `after` continues `before`: no epoch disappears, changes who it is for or moves
      backward, and an ended epoch never changes again. */
  ghost predicate EpochsAdvance(before: seq<AssignmentRow>, after: seq<AssignmentRow>) {
    && |before| <= |after|
    && forall i | 0 <= i < |before| ::
         && after[i].assignment.id == before[i].assignment.id
         && after[i].assignment.agent == before[i].assignment.agent
         && after[i].assignment.startedAt == before[i].assignment.startedAt
         && after[i].startedBy == before[i].startedBy
         && Rank(before[i].assignment.state) <= Rank(after[i].assignment.state)
         && (before[i].endedBy != "" ==> after[i] == before[i])
  }

  predicate MovesEpochs(d: Data) {
    d.AssignmentConfiguring? || d.AssignmentRunnable? || d.AssignmentBlocked? || d.AssignmentEnded? || d.ClosedDown?
  }

  lemma OthersKeepEpochs(s: Snapshot, e: Event)
    requires ApplyData(s, e).Accept? && !MovesEpochs(e.data)
    ensures ApplyData(s, e).next.assignments == s.assignments
  {
  }

  lemma MovesAdvance(s: Snapshot, e: Event)
    requires Sound(s) && ApplyData(s, e).Accept? && MovesEpochs(e.data)
    ensures EpochsAdvance(s.assignments, ApplyData(s, e).next.assignments)
  {
    match e.data
    case AssignmentConfiguring(_, _) =>
    case AssignmentRunnable(_, _, _, _) => RunnableAdvances(s, e);
    case AssignmentBlocked(_, _) => BlockedAdvances(s, e);
    case AssignmentEnded(_, _, forced) => EndAdvances(s, e, forced);
    case ClosedDown(forced) => EndAdvances(s, e, forced);
  }

  lemma ApplyAdvances(s: Snapshot, e: Event)
    requires Sound(s) && Apply(s, e).Accept?
    ensures EpochsAdvance(s.assignments, Apply(s, e).next.assignments)
  {
    if MovesEpochs(e.data) {
      MovesAdvance(s, e);
    } else {
      OthersKeepEpochs(s, e);
    }
  }

  /** Moving the current assignment on, in place, advances the last epoch. */
  lemma UpdateAdvances(rows: seq<AssignmentRow>, a: Assignment)
    requires rows != [] && rows[|rows| - 1].endedBy == ""
    requires var current := rows[|rows| - 1].assignment;
             && a.id == current.id && a.agent == current.agent && a.startedAt == current.startedAt
             && Rank(current.state) <= Rank(a.state)
    ensures var last := |rows| - 1;
            EpochsAdvance(rows, rows[last := rows[last].(assignment := a)])
  {
  }

  lemma RunnableAdvances(s: Snapshot, e: Event)
    requires Sound(s) && e.data.AssignmentRunnable? && MakeRunnable(s, e).Accept?
    ensures EpochsAdvance(s.assignments, MakeRunnable(s, e).next.assignments)
  {
    UpdateAdvances(s.assignments, s.assignment.value.(state := Runnable, thread := e.data.threadId));
  }

  lemma BlockedAdvances(s: Snapshot, e: Event)
    requires Sound(s) && e.data.AssignmentBlocked? && Block(s, e).Accept?
    ensures EpochsAdvance(s.assignments, Block(s, e).next.assignments)
  {
    UpdateAdvances(s.assignments, s.assignment.value.(state := Blocked));
  }

  lemma EndAdvances(s: Snapshot, e: Event, forced: bool)
    requires Sound(s) && EndEpoch(s, e, forced).Accept?
    ensures EpochsAdvance(s.assignments, EndEpoch(s, e, forced).next.assignments)
  {
  }

  /** Over every history, epochs only ever advance from any earlier point to the end. */
  lemma {:induction false} EpochsNeverMoveBack(events: seq<Event>, n: nat)
    requires n <= |events| && forall x | x in events :: ProperEvent(x)
    ensures EpochsAdvance(Replay(events[..n]).assignments, Replay(events).assignments)
  {
    if n == |events| {
      assert events[..n] == events;
    } else {
      var last := |events| - 1;
      assert events[..last][..n] == events[..n];
      EpochsNeverMoveBack(events[..last], n);
      assert forall x | x in events[..last] + [events[last]] :: x in events;
      HistoriesAreSound(events[..last], events[last]);
      var s := Replay(events[..last]);
      if s != EMPTY && Apply(s, events[last]).Accept? {
        ApplyAdvances(s, events[last]);
      }
    }
  }

  // ----------------------------------------------------------------------------- order

  /** What acceptance says about the chain of heads. */
  lemma AcceptLinks(s: Snapshot, e: Event)
    requires Apply(s, e).Accept?
    ensures Apply(s, e).next.project.head == e.id && Apply(s, e).next.project.id != ""
    ensures if s.project.id == "" then e.data.Created? && e.previous == ""
            else !e.data.Created? && e.previous == s.project.head
  {
    if !e.data.Created? {
      DataKeepsIdentity(s, e);
    }
  }

  lemma DataKeepsIdentity(s: Snapshot, e: Event)
    requires ApplyData(s, e).Accept?
    ensures ApplyData(s, e).next.project.id == s.project.id
  {
  }

  /** A creation first, then each event naming the one before it. */
  ghost predicate Linked(events: seq<Event>) {
    && (events != [] ==> events[0].data.Created? && events[0].previous == "")
    && forall i | 0 < i < |events| :: !events[i].data.Created? && events[i].previous == events[i - 1].id
  }

  /** Accepted histories are linked, and the head is the last event. */
  lemma {:induction false} AcceptedIsLinked(events: seq<Event>)
    requires AllAccepted(events)
    ensures Linked(events)
    ensures events != [] ==>
              Replay(events).project.id != "" && Replay(events).project.head == events[|events| - 1].id
  {
    if events != [] {
      var n := |events| - 1;
      PrefixAccepted(events, n);
      AcceptedIsLinked(events[..n]);
      HeadAfter(events);
      LinkedExtends(events);
    }
  }

  lemma HeadAfter(events: seq<Event>)
    requires events != [] && Apply(Replay(events[..|events| - 1]), events[|events| - 1]).Accept?
    ensures var before, e := Replay(events[..|events| - 1]), events[|events| - 1];
            && Replay(events).project.id != "" && Replay(events).project.head == e.id
            && if before.project.id == "" then e.data.Created? && e.previous == ""
               else !e.data.Created? && e.previous == before.project.head
  {
    AcceptLinks(Replay(events[..|events| - 1]), events[|events| - 1]);
  }

  lemma LinkedExtends(events: seq<Event>)
    requires events != [] && Linked(events[..|events| - 1])
    requires var n := |events| - 1;
             if n == 0 then events[n].data.Created? && events[n].previous == ""
             else !events[n].data.Created? && events[n].previous == events[n - 1].id
    ensures Linked(events)
  {
    assert forall i | 0 <= i < |events| - 1 :: events[i] == events[..|events| - 1][i];
  }

  lemma PrefixAccepted(events: seq<Event>, n: nat)
    requires AllAccepted(events) && n <= |events|
    ensures AllAccepted(events[..n])
    ensures n < |events| ==> Apply(Replay(events[..n]), events[n]).Accept?
  {
    forall i | 0 <= i < n
      ensures Apply(Replay(events[..n][..i]), events[..n][i]).Accept?
    {
      assert events[..n][..i] == events[..i];
    }
  }

  lemma LinkedSiblings(events: seq<Event>, i: nat, j: nat)
    requires AllAccepted(events) && UniqueIds(events) && i < |events| && j < |events| && i != j
    ensures events[i].previous != events[j].previous
  {
    AcceptedIsLinked(events);
  }

  /** An event that is a creation, or does not name the head, is rejected by a project. */
  lemma RejectedUnlessLinked(s: Snapshot, e: Event)
    requires s.project.id != "" && (e.data.Created? || e.previous != s.project.head)
    ensures Apply(s, e).Reject?
  {
  }

  lemma LinkedIsPast(events: seq<Event>, i: nat)
    requires AllAccepted(events) && UniqueIds(events) && i < |events|
    ensures Apply(Replay(events), events[i]).Reject?
  {
    AcceptedIsLinked(events);
    NotAtTheEnd(events, i);
    RejectedUnlessLinked(Replay(events), events[i]);
  }

  lemma NotAtTheEnd(events: seq<Event>, i: nat)
    requires Linked(events) && UniqueIds(events) && i < |events|
    ensures events[i].data.Created? || events[i].previous != events[|events| - 1].id
  {
    if i > 0 {
      assert events[i - 1].id != events[|events| - 1].id;
    }
  }

  lemma SameIdSamePlace(events: seq<Event>, i: nat, j: nat)
    requires UniqueIds(events) && i < |events| && j < |events| && events[i].id == events[j].id
    ensures i == j
  {
  }

  lemma {:induction false} SameOrder(one: seq<Event>, two: seq<Event>, n: nat)
    requires Linked(one) && UniqueIds(one) && Linked(two)
    requires forall e :: e in one <==> e in two
    requires n <= |one| && n <= |two|
    ensures one[..n] == two[..n]
  {
    if n > 0 {
      SameOrder(one, two, n - 1);
      PositionFixed(one, two, n - 1);
      assert one[..n] == one[..n - 1] + [one[n - 1]] && two[..n] == two[..n - 1] + [two[n - 1]];
    }
  }

  /** Once the prefixes agree, so does the next event. */
  lemma PositionFixed(one: seq<Event>, two: seq<Event>, k: nat)
    requires Linked(one) && UniqueIds(one) && Linked(two)
    requires forall e | e in two :: e in one
    requires k < |two| && k <= |one| && one[..k] == two[..k]
    ensures k < |one| && one[k] == two[k]
  {
    assert two[k] in two;
    var m :| 0 <= m < |one| && one[m] == two[k];
    if k > 0 {
      assert one[k - 1] == one[..k][k - 1] == two[..k][k - 1] == two[k - 1];
      assert m > 0 && one[m].previous == one[m - 1].id;
      SameIdSamePlace(one, m - 1, k - 1);
    }
  }

  lemma LinkedOrder(one: seq<Event>, two: seq<Event>)
    requires Linked(one) && Linked(two) && UniqueIds(one) && UniqueIds(two)
    requires forall e :: e in one <==> e in two
    ensures one == two
  {
    var n := if |one| <= |two| then |one| else |two|;
    SameOrder(one, two, n);
    if n < |two| {
      PositionFixed(one, two, n);
    }
    if n < |one| {
      PositionFixed(two, one, n);
    }
    assert one == one[..n] && two == two[..n];
  }

  // ------------------------------------------------------------- histories with rejections

  /** Identifiers are not empty, and equal identifiers mean equal events. An event may occur
      any number of times. */
  ghost predicate Identified(events: seq<Event>) {
    && (forall x | x in events :: x.id != "")
    && (forall x, y | x in events && y in events && x.id == y.id :: x == y)
  }

  /** The event at `i` is accepted when its turn comes. */
  ghost predicate AcceptedAt(events: seq<Event>, i: nat)
    requires i < |events|
  {
    Apply(Replay(events[..i]), events[i]).Accept?
  }

  /** The events that a history accepts, in order. */
  ghost function AcceptedPart(events: seq<Event>): (part: seq<Event>)
    ensures forall x | x in part :: x in events
  {
    if events == [] then []
    else
      var n := |events| - 1;
      assert events == events[..n] + [events[n]];
      AcceptedPart(events[..n]) + if AcceptedAt(events, n) then [events[n]] else []
  }

  /** Rejected events may be left out: the rest is accepted throughout and ends in the same
      snapshot. */
  lemma {:induction false} RejectionsLeaveNoTrace(events: seq<Event>)
    ensures AllAccepted(AcceptedPart(events)) && Replay(AcceptedPart(events)) == Replay(events)
  {
    if events != [] {
      var n := |events| - 1;
      RejectionsLeaveNoTrace(events[..n]);
      PartStep(events);
      if AcceptedAt(events, n) {
        AcceptedExtends(AcceptedPart(events[..n]), events[n]);
      }
    }
  }

  lemma PartStep(events: seq<Event>)
    requires events != []
    ensures var n := |events| - 1;
            if AcceptedAt(events, n) then
              AcceptedPart(events) == AcceptedPart(events[..n]) + [events[n]] &&
              Replay(events) == Apply(Replay(events[..n]), events[n]).next
            else
              AcceptedPart(events) == AcceptedPart(events[..n]) && Replay(events) == Replay(events[..n])
  {
  }

  lemma AcceptedExtends(part: seq<Event>, e: Event)
    requires AllAccepted(part) && Apply(Replay(part), e).Accept?
    ensures AllAccepted(part + [e]) && Replay(part + [e]) == Apply(Replay(part), e).next
  {
    var more := part + [e];
    assert more[..|part|] == part;
    forall i | 0 <= i < |more|
      ensures Apply(Replay(more[..i]), more[i]).Accept?
    {
      if i < |part| {
        assert more[..i] == part[..i];
      }
    }
  }

  lemma {:induction false} AcceptedIsUnique(events: seq<Event>)
    requires Identified(events)
    ensures UniqueIds(AcceptedPart(events))
  {
    if events != [] {
      var n := |events| - 1;
      var part, e := AcceptedPart(events[..n]), events[n];
      assert events == events[..n] + [e];
      AcceptedIsUnique(events[..n]);
      RejectionsLeaveNoTrace(events[..n]);
      if AcceptedAt(events, n) {
        forall i | 0 <= i < |part|
          ensures part[i].id != e.id
        {
          assert part[i] in events[..n];
          LinkedIsPast(part, i);
        }
      }
    }
  }

  lemma {:induction false} AcceptedStays(events: seq<Event>, i: nat)
    requires i < |events| && AcceptedAt(events, i)
    ensures events[i] in AcceptedPart(events)
  {
    var n := |events| - 1;
    if i < n {
      assert events[..n][..i] == events[..i];
      AcceptedStays(events[..n], i);
    }
  }

  /** An event accepted at its turn in any history is rejected ever after. */
  lemma NeverAcceptedTwice(events: seq<Event>, i: nat)
    requires Identified(events) && i < |events| && AcceptedAt(events, i)
    ensures Apply(Replay(events), events[i]).Reject?
  {
    var part := AcceptedPart(events);
    RejectionsLeaveNoTrace(events);
    AcceptedIsUnique(events);
    AcceptedStays(events, i);
    var k :| 0 <= k < |part| && part[k] == events[i];
    LinkedIsPast(part, k);
  }

  /** Two events of any history that name the same previous head are not both accepted. */
  lemma NoAcceptedSiblings(events: seq<Event>, i: nat, j: nat)
    requires Identified(events) && i < j < |events| && AcceptedAt(events, i) && AcceptedAt(events, j)
    ensures events[i].previous != events[j].previous
  {
    var before := events[..j];
    assert before[..i] == events[..i];
    assert Identified(before);
    NeverAcceptedTwice(before, i);
    var part := AcceptedPart(events);
    RejectionsLeaveNoTrace(events);
    AcceptedIsUnique(events);
    AcceptedStays(events, i);
    AcceptedStays(events, j);
    var k :| 0 <= k < |part| && part[k] == events[i];
    var l :| 0 <= l < |part| && part[l] == events[j];
    LinkedSiblings(part, k, l);
  }

  /** Any set of events has at most one order in which all are accepted. */
  lemma OneAcceptedOrder(one: seq<Event>, two: seq<Event>)
    requires Identified(one) && AllAccepted(one) && AllAccepted(two)
    requires forall e :: e in one <==> e in two
    ensures one == two
  {
    AllAcceptedIsUnique(one);
    AllAcceptedIsUnique(two);
    AcceptedIsLinked(one);
    AcceptedIsLinked(two);
    LinkedOrder(one, two);
  }

  lemma AllAcceptedIsUnique(events: seq<Event>)
    requires Identified(events) && AllAccepted(events)
    ensures UniqueIds(events)
  {
    NothingLeftOut(events);
    AcceptedIsUnique(events);
  }

  lemma {:induction false} NothingLeftOut(events: seq<Event>)
    requires AllAccepted(events)
    ensures AcceptedPart(events) == events
  {
    if events != [] {
      var n := |events| - 1;
      PrefixAccepted(events, n);
      NothingLeftOut(events[..n]);
    }
  }
}
