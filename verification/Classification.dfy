/**
 The classification stages that decide, record by record, which events are projected.
 The loops rewrite statuses in place while they run over the record map in an arbitrary
 order; each order is a parameter here.
 */
module Classification {
  import opened CausalGraph
  import opened EventRecords
  import opened Usability
  import opened Authorization

  // ------------------------------------------------- in-place loops over the records

  /** The identifiers an iteration has visited before step `i`. */
  ghost function Visited(order: seq<Id>, i: nat): set<Id>
    requires i <= |order|
  {
    set k | 0 <= k < i :: order[k]
  }

  lemma VisitedGrows(order: seq<Id>, i: nat)
    requires i < |order|
    ensures Visited(order, i + 1) == Visited(order, i) + {order[i]}
  {
    forall x | x in Visited(order, i) + {order[i]}
      ensures x in Visited(order, i + 1)
    {
      var k :| 0 <= k <= i && order[k] == x;
    }
  }

  lemma VisitedAll<V>(order: seq<Id>, m: map<Id, V>)
    requires IsOrderOf(order, m)
    ensures Visited(order, |order|) == m.Keys
  {
    forall x | x in m
      ensures x in Visited(order, |order|)
    {
      var k :| 0 <= k < |order| && order[k] == x;
    }
  }

  type Statuses = map<Id, Status>

  /** `records` with the target status on the visited ones. */
  ghost function Overlay(records: Records, target: Statuses, visited: set<Id>): Records
    requires target.Keys == records.Keys
  {
    map id | id in records :: if id in visited then records[id].(status := target[id]) else records[id]
  }

  ghost function WithStatuses(records: Records, target: Statuses): Records
    requires target.Keys == records.Keys
  {
    map id | id in records :: records[id].(status := target[id])
  }

  /** One step of a loop that gives every record its target status when it is visited. */
  lemma OverlayStep(records: Records, target: Statuses, order: seq<Id>, i: nat)
    requires target.Keys == records.Keys && IsOrderOf(order, records) && i < |order|
    ensures var now := Overlay(records, target, Visited(order, i));
            var next := Overlay(records, target, Visited(order, i + 1));
            var id := order[i];
            && now[id] == records[id]
            && next == now[id := records[id].(status := target[id])]
            && (target[id] == records[id].status ==> next == now)
  {
    VisitedGrows(order, i);
    assert order[i] !in Visited(order, i);
  }

  lemma OverlayEnds(records: Records, target: Statuses, order: seq<Id>)
    requires target.Keys == records.Keys && IsOrderOf(order, records)
    ensures Overlay(records, target, Visited(order, 0)) == records
    ensures Overlay(records, target, Visited(order, |order|)) == WithStatuses(records, target)
  {
    VisitedAll(order, records);
  }

  // ---------------------------------------------------------------- local controls

  ghost function ControlSigning(policy: Policy, records: Records): Statuses {
    map id | id in records ::
      if records[id].status == Projected && IsControl(records[id].event.content.kind) &&
         !SignedByLocalRoot(policy, records[id].event)
      then Unauthorized else records[id].status
  }

  ghost function ControlReadiness(records: Records): Statuses {
    map id | id in records ::
      if records[id].status == Projected && IsControl(records[id].event.content.kind) &&
         !ParentsUsable(records, records[id].event)
      then Unresolved else records[id].status
  }

  /** The outcome of the local-control stage: controls stay projected only when the local
      root signed them and they rest on usable parents; nothing else changes. */
  ghost function LocalControls(policy: Policy, records: Records): Records {
    var signed := WithStatuses(records, ControlSigning(policy, records));
    WithStatuses(signed, ControlReadiness(signed))
  }

  // ----------------------------------------------------------------- domain events

  ghost function DomainReadiness(records: Records): Statuses {
    map id | id in records ::
      if records[id].status == Projected && IsDomain(records[id].event.content.kind) &&
         !ParentsUsable(records, records[id].event)
      then Unresolved else records[id].status
  }

  /** What the domain stage can know before any order matters: the records once those with
      unusable ancestors are set aside, the events that are authorized among them, and
      the events whose message-state target, and whose thread, is a causal ancestor. */
  datatype Facts = Facts(
    ready: Records, authorized: set<Id>, targetBelow: set<Id>, threadBelow: set<Id>)

  ghost function AuthorizedIds(policy: Policy, access: Revocations, records: Records): set<Id> {
    set id | id in records && Authorized(policy, records, access, records[id].event)
  }

  ghost function TargetBelowIds(records: Records): set<Id> {
    set id | id in records && AtOrBelow(records, TargetOf(records[id].event.content.payload), id)
  }

  ghost function ThreadBelowIds(records: Records): set<Id> {
    set id | id in records && AtOrBelow(records, records[id].event.content.threadId, id)
  }

  ghost function FactsOf(policy: Policy, access: Revocations, records: Records): Facts {
    var ready := WithStatuses(records, DomainReadiness(records));
    Facts(ready, AuthorizedIds(policy, access, ready), TargetBelowIds(records), ThreadBelowIds(records))
  }

  /** The events whose thread root an iteration visits before the event itself. */
  ghost function RootFirst(records: Records, order: seq<Id>): set<Id> {
    set id | id in records &&
             exists i, j :: 0 <= i < j < |order| && order[i] == records[id].event.content.threadId && order[j] == id
  }

  lemma RootFirstIsVisited(records: Records, order: seq<Id>, i: nat)
    requires IsOrderOf(order, records) && i < |order|
    ensures order[i] in RootFirst(records, order) <==>
            records[order[i]].event.content.threadId in Visited(order, i)
  {
    var thread := records[order[i]].event.content.threadId;
    if thread in Visited(order, i) {
      var k :| 0 <= k < i && order[k] == thread;
      assert order[k] == thread && order[i] == order[i];
    }
  }

  /** A reply to, or cancellation of, a question that is itself refused. */
  ghost predicate RootRefused(facts: Facts, e: Event) {
    && IsReply(e)
    && ProjectedAs(facts.ready, e.content.threadId, Question)
    && e.content.threadId !in facts.authorized
  }

  /** The status after the authorization loop. `rootFirst` tells whether that loop visits
      the thread root before the event. */
  ghost function AuthorizedStatus(facts: Facts, id: Id, rootFirst: bool): Status
    requires id in facts.ready
  {
    var r := facts.ready[id];
    if r.status != Projected || !IsDomain(r.event.content.kind) then r.status
    else if id !in facts.authorized || (rootFirst && RootRefused(facts, r.event)) then Unauthorized
    else Projected
  }

  /** The thread is a root question or message that survives authorization. */
  ghost predicate RootSurvives(facts: Facts, thread: Id) {
    && IsProjected(facts.ready, thread)
    && IsThreadRoot(facts.ready[thread].event.content.kind)
    && thread in facts.authorized
  }

  /** The status that the whole domain stage ends with. */
  ghost function FinalStatus(facts: Facts, id: Id, rootFirst: bool): Status
    requires id in facts.ready
  {
    var status := AuthorizedStatus(facts, id, rootFirst);
    var content := facts.ready[id].event.content;
    if status != Projected || !IsDomain(content.kind) then status
    else if IsMessageState(content.kind) && id !in facts.targetBelow then Invalid
    else if content.threadId != "" && !(RootSurvives(facts, content.threadId) && id in facts.threadBelow) then Invalid
    else Projected
  }

  ghost function AuthorizedStatuses(facts: Facts, rootFirst: set<Id>): Statuses {
    map id | id in facts.ready :: AuthorizedStatus(facts, id, id in rootFirst)
  }

  ghost function FinalStatuses(facts: Facts, rootFirst: set<Id>): Statuses {
    map id | id in facts.ready :: FinalStatus(facts, id, id in rootFirst)
  }

  /** What the domain stage makes of `records` when its authorization loop visits them in
      the given order. */
  ghost function DomainOutcome(policy: Policy, access: Revocations, records: Records, order: seq<Id>): Records {
    WithStatuses(records, FinalStatuses(FactsOf(policy, access, records), RootFirst(records, order)))
  }

  /** Which events are projected, and which are unresolved, does not depend on the order of
      the loops. Only the label of a rejected reply can: it depends on the order exactly when
      the reply is authorized by itself but its question is refused, and then it is
      unauthorized if the question is visited first and invalid otherwise. */
  lemma OrderChangesOnlyLabels(policy: Policy, access: Revocations, records: Records, one: seq<Id>, two: seq<Id>, id: Id)
    requires WellFormed(records) && id in records
    ensures var facts := FactsOf(policy, access, records);
            var a := DomainOutcome(policy, access, records, one)[id].status;
            var b := DomainOutcome(policy, access, records, two)[id].status;
            && (a == Projected <==> b == Projected)
            && (a == Unresolved <==> b == Unresolved)
            && (a != b <==>
                  && AuthorizedStatus(facts, id, false) == Projected
                  && RootRefused(facts, records[id].event)
                  && (id in RootFirst(records, one) <==> id !in RootFirst(records, two)))
            && (a != b && id in RootFirst(records, one) ==> a == Unauthorized && b == Invalid)
  {
    var facts := FactsOf(policy, access, records);
    LabelsOnly(facts, id);
  }

  lemma LabelsOnly(facts: Facts, id: Id)
    requires id in facts.ready && "" !in facts.ready
    ensures FinalStatus(facts, id, true) == Projected <==> FinalStatus(facts, id, false) == Projected
    ensures FinalStatus(facts, id, true) == Unresolved <==> FinalStatus(facts, id, false) == Unresolved
    ensures FinalStatus(facts, id, true) != FinalStatus(facts, id, false) <==>
            AuthorizedStatus(facts, id, false) == Projected && RootRefused(facts, facts.ready[id].event)
    ensures FinalStatus(facts, id, true) != FinalStatus(facts, id, false) ==>
            FinalStatus(facts, id, true) == Unauthorized && FinalStatus(facts, id, false) == Invalid
  {
  }

  // --------------------------------------------------------- what the loops rely on

  /** Marking events whose parents are unusable changes no event's usability, so a memo
      filled before stays right after. */
  lemma MarkingUnreadyIsHarmless(records: Records, visited: set<Id>)
    ensures forall id :: Usable(records, id) <==> Usable(Overlay(records, DomainReadiness(records), visited), id)
  {
    var marked := Overlay(records, DomainReadiness(records), visited);
    forall id
      ensures Usable(records, id) <==> Usable(marked, id)
    {
      forall x | x in records && marked[x].status != records[x].status
        ensures !Usable(records, x) && marked[x].status != Projected
      {
        UsableUnfolds(records, x);
      }
      UsableStable(records, marked, id);
    }
  }

  lemma RepliesNeedQuestions(policy: Policy, records: Records, access: Revocations, e: Event)
    ensures IsReply(e) && Authorized(policy, records, access, e) ==> ProjectedAs(records, e.content.threadId, Question)
  {
  }

  /** In the middle of the authorization loop, an event passes exactly when it is authorized
      on the ready records and no refused root of it has been marked yet. */
  lemma AuthorizedMidway(policy: Policy, access: Revocations, facts: Facts, now: Records, id: Id, rootVisited: bool)
    requires SameEvents(facts.ready, now) && id in now
    requires facts.authorized == AuthorizedIds(policy, access, facts.ready)
    requires forall x | x in now && !IsDomain(now[x].event.content.kind) :: now[x].status == facts.ready[x].status
    requires var thread := now[id].event.content.threadId;
             thread in now ==>
               if rootVisited then exists f :: now[thread].status == AuthorizedStatus(facts, thread, f)
               else now[thread] == facts.ready[thread]
    ensures Authorized(policy, now, access, now[id].event) <==>
            id in facts.authorized && !(rootVisited && RootRefused(facts, now[id].event))
  {
    var e := now[id].event;
    var thread := e.content.threadId;
    if IsReply(e) && IsProjected(facts.ready, thread) && !IsProjected(now, thread) {
      RepliesNeedQuestions(policy, now, access, e);
      RepliesNeedQuestions(policy, facts.ready, access, e);
      assert rootVisited;
      assert facts.ready[thread].event.content.kind == Question ==> thread !in facts.authorized;
    } else {
      AuthorizedReads(policy, facts.ready, now, access, e);
    }
  }

  /** The decision the authorization loop takes at step `i` is the target status. */
  lemma AuthorizationDecision(policy: Policy, access: Revocations, facts: Facts, order: seq<Id>, i: nat)
    requires IsOrderOf(order, facts.ready) && i < |order|
    requires facts.authorized == AuthorizedIds(policy, access, facts.ready)
    ensures var target := AuthorizedStatuses(facts, RootFirst(facts.ready, order));
            var now := Overlay(facts.ready, target, Visited(order, i));
            var r := facts.ready[order[i]];
            target[order[i]] ==
              if r.status == Projected && IsDomain(r.event.content.kind) && !Authorized(policy, now, access, r.event)
              then Unauthorized else r.status
  {
    var rootFirst := RootFirst(facts.ready, order);
    var target := AuthorizedStatuses(facts, rootFirst);
    var now := Overlay(facts.ready, target, Visited(order, i));
    var id := order[i];
    var thread := facts.ready[id].event.content.threadId;
    RootFirstIsVisited(facts.ready, order, i);
    if thread in Visited(order, i) && thread in now {
      assert now[thread].status == AuthorizedStatus(facts, thread, thread in rootFirst);
    }
    AuthorizedMidway(policy, access, facts, now, id, thread in Visited(order, i));
  }

  /** What the root-checking loop refuses, read off the records as they are then. */
  ghost predicate Unrooted(now: Records, facts: Facts, id: Id)
    requires id in now
  {
    var content := now[id].event.content;
    || (IsMessageState(content.kind) && id !in facts.targetBelow)
    || (content.threadId != "" &&
        (|| !IsProjected(now, content.threadId)
         || !IsThreadRoot(now[content.threadId].event.content.kind)
         || id !in facts.threadBelow))
  }

  /** A target for the root-checking loop: it invalidates the projected domain events that
      are unrooted at the start, and leaves root questions and messages alone. */
  ghost predicate IsRootingTarget(start: Records, facts: Facts, target: Statuses) {
    && target.Keys == start.Keys
    && forall id | id in start ::
         && (IsThreadRoot(start[id].event.content.kind) ==> target[id] == start[id].status)
         && target[id] == if start[id].status == Projected && IsDomain(start[id].event.content.kind) &&
                             Unrooted(start, facts, id)
                          then Invalid else start[id].status
  }

  /** Thread roots keep their status throughout that loop, so it does not matter how much
      of it has run when another event reads its root. */
  lemma UnrootedIsStable(start: Records, facts: Facts, target: Statuses, visited: set<Id>, id: Id)
    requires IsRootingTarget(start, facts, target) && id in start
    ensures Unrooted(start, facts, id) <==> Unrooted(Overlay(start, target, visited), facts, id)
  {
  }

  lemma RootingStep(start: Records, facts: Facts, target: Statuses, order: seq<Id>, i: nat)
    requires IsRootingTarget(start, facts, target) && IsOrderOf(order, start) && i < |order|
    ensures var now := Overlay(start, target, Visited(order, i));
            var id := order[i];
            && now[id] == start[id]
            && TargetBelowIds(now) == TargetBelowIds(start) && ThreadBelowIds(now) == ThreadBelowIds(start)
            && Overlay(start, target, Visited(order, i + 1)) ==
                 if now[id].status == Projected && IsDomain(now[id].event.content.kind) && Unrooted(now, facts, id)
                 then now[id := now[id].(status := Invalid)] else now
  {
    OverlayStep(start, target, order, i);
    UnrootedIsStable(start, facts, target, Visited(order, i), order[i]);
    BelowIdsReadEvents(start, Overlay(start, target, Visited(order, i)));
  }

  /** A projected root question or message names no thread, so the final statuses are such
      a target. */
  lemma FinalIsRootingTarget(facts: Facts, rootFirst: set<Id>)
    requires WellFormed(facts.ready)
    ensures IsRootingTarget(WithStatuses(facts.ready, AuthorizedStatuses(facts, rootFirst)), facts,
                            FinalStatuses(facts, rootFirst))
  {
    var start := WithStatuses(facts.ready, AuthorizedStatuses(facts, rootFirst));
    forall id | id in start
      ensures IsThreadRoot(start[id].event.content.kind) ==> FinalStatus(facts, id, id in rootFirst) == start[id].status
      ensures FinalStatus(facts, id, id in rootFirst) ==
              if start[id].status == Projected && IsDomain(start[id].event.content.kind) && Unrooted(start, facts, id)
              then Invalid else start[id].status
    {
      var thread := start[id].event.content.threadId;
      if thread in start && IsThreadRoot(start[thread].event.content.kind) {
        RootIsStable(facts, thread, thread in rootFirst);
      }
      if IsThreadRoot(start[id].event.content.kind) {
        RootIsStable(facts, id, id in rootFirst);
      }
    }
  }

  lemma RootIsStable(facts: Facts, thread: Id, rootFirst: bool)
    requires WellFormed(facts.ready) && thread in facts.ready
    requires IsThreadRoot(facts.ready[thread].event.content.kind)
    ensures FinalStatus(facts, thread, rootFirst) == AuthorizedStatus(facts, thread, rootFirst)
    ensures AuthorizedStatus(facts, thread, rootFirst) == Projected <==> RootSurvives(facts, thread)
  {
  }

  // ------------------------------------------------- the statuses, read off the records

  /** A control that the local root key did not sign. */
  predicate UnsignedControl(policy: Policy, records: Records, id: Id) {
    && id in records
    && IsControl(records[id].event.content.kind)
    && !(records[id].event.content.installation == policy.installation && records[id].event.signer == policy.rootKey)
  }

  /** A parent is still usable once the unsigned controls are refused. */
  ghost predicate UsableOnceRefused(policy: Policy, records: Records, p: Id) {
    Usable(records, p) && forall a | AtOrBelow(records, a, p) :: !UnsignedControl(policy, records, a)
  }

  lemma RefusingControls(policy: Policy, records: Records, p: Id)
    ensures Usable(WithStatuses(records, ControlSigning(policy, records)), p) <==>
            UsableOnceRefused(policy, records, p)
  {
    var signed := WithStatuses(records, ControlSigning(policy, records));
    SameGraph(records, signed);
    assert forall a :: IsProjected(signed, a) <==> IsProjected(records, a) && !UnsignedControl(policy, records, a);
  }

  /** The local-control stage decides only projected controls: the unsigned ones end
      unauthorized, and the signed ones unresolved exactly when some parent is unusable or rests
      on an unsigned control. Every other status stays. */
  ghost predicate ControlMeans(policy: Policy, records: Records, id: Id, final: Status)
    requires id in records
  {
    var unsigned := UnsignedControl(policy, records, id);
    var stands := forall p | p in records[id].event.content.parents :: UsableOnceRefused(policy, records, p);
    if records[id].status != Projected || !IsControl(records[id].event.content.kind) then final == records[id].status
    else
      && (final == Unauthorized <==> unsigned)
      && (final == Unresolved <==> !unsigned && !stands)
      && (final == Projected <==> !unsigned && stands)
  }

  lemma ControlStatusExactly(policy: Policy, records: Records, id: Id)
    requires id in records
    ensures ControlMeans(policy, records, id, LocalControls(policy, records)[id].status)
  {
    forall p | p in records[id].event.content.parents
      ensures Usable(WithStatuses(records, ControlSigning(policy, records)), p) <==>
              UsableOnceRefused(policy, records, p)
    {
      RefusingControls(policy, records, p);
    }
  }

  /** The kinds the domain stage decides, one by one. */
  predicate DecidedLast(k: Kind) {
    || k == Question || k == Answer || k == Message || k == ThreadCancel
    || k == MessageArchive || k == MessageRestore || k == MessageReject
    || k == ProjectEvent || k == ProjectCommand || k == ProjectResult || k == HarnessActivity
  }

  /** The event is authorized on the incoming records, and the question that a reply answers
      or a cancellation closes rests on usable parents. */
  ghost predicate Admitted(policy: Policy, access: Revocations, records: Records, e: Event) {
    && Authorized(policy, records, access, e)
    && (IsReply(e) && e.content.threadId in records ==>
          ParentsUsable(records, records[e.content.threadId].event))
  }

  /** The order visits the refused question of a reply or cancellation before the event. */
  ghost predicate RefusedFirst(policy: Policy, access: Revocations, records: Records, order: seq<Id>, e: Event) {
    && IsReply(e) && e.content.threadId in records
    && !Authorized(policy, records, access, records[e.content.threadId].event)
    && exists i, j :: 0 <= i < j < |order| && order[i] == e.content.threadId && order[j] == e.id
  }

  /** The event's message-state target and its thread are in place: the target is a causal
      ancestor, and so is the thread, a question or message that is itself projected, ready and
      authorized. */
  ghost predicate InPlace(policy: Policy, access: Revocations, records: Records, e: Event) {
    var thread := e.content.threadId;
    && (IsMessageState(e.content.kind) ==> AtOrBelow(records, TargetOf(e.content.payload), e.id))
    && (thread != "" ==>
          && IsProjected(records, thread)
          && (records[thread].event.content.kind == Question || records[thread].event.content.kind == Message)
          && ParentsUsable(records, records[thread].event)
          && Authorized(policy, records, access, records[thread].event)
          && AtOrBelow(records, thread, e.id))
  }

  /** What each status the domain stage can end with means on the incoming records. */
  ghost predicate StatusMeans(policy: Policy, access: Revocations, records: Records, order: seq<Id>, id: Id,
                              final: Status)
    requires id in records
  {
    var e := records[id].event;
    if records[id].status != Projected || !DecidedLast(e.content.kind) then final == records[id].status
    else
      var ready := ParentsUsable(records, e);
      var refused := !Admitted(policy, access, records, e) || RefusedFirst(policy, access, records, order, e);
      var inPlace := InPlace(policy, access, records, e);
      && (final == Unresolved <==> !ready)
      && (final == Unauthorized <==> ready && refused)
      && (final == Invalid <==> ready && !refused && !inPlace)
      && (final == Projected <==> ready && !refused && inPlace)
  }

  lemma DomainKinds(k: Kind)
    ensures IsDomain(k) <==> DecidedLast(k)
  {
  }

  lemma ReadinessMeans(records: Records, id: Id)
    requires id in records
    ensures var r := records[id];
            DomainReadiness(records)[id] ==
              if r.status == Projected && DecidedLast(r.event.content.kind) && !ParentsUsable(records, r.event)
              then Unresolved else r.status
  {
    DomainKinds(records[id].event.content.kind);
  }

  lemma ReadyMeans(policy: Policy, access: Revocations, records: Records, id: Id)
    requires id in records
    ensures var r := FactsOf(policy, access, records).ready[id];
            && r.event == records[id].event
            && r.status == if records[id].status == Projected && DecidedLast(r.event.content.kind) &&
                              !ParentsUsable(records, r.event)
                           then Unresolved else records[id].status
  {
    ReadinessMeans(records, id);
  }

  /** Setting unready events aside takes away the authorization of exactly those replies whose
      question is unready. */
  lemma AuthorizedOnceReady(policy: Policy, access: Revocations, records: Records, ready: Records, e: Event)
    requires SameEvents(records, ready)
    requires forall x | x in records && !IsDomain(records[x].event.content.kind) :: ready[x].status == records[x].status
    requires var thread := e.content.threadId;
             ProjectedAs(records, thread, Question) ==>
               (IsProjected(ready, thread) <==> ParentsUsable(records, records[thread].event))
    requires IsProjected(ready, e.content.threadId) ==> IsProjected(records, e.content.threadId)
    ensures Authorized(policy, ready, access, e) <==> Admitted(policy, access, records, e)
  {
    var thread := e.content.threadId;
    RepliesNeedQuestions(policy, records, access, e);
    if IsReply(e) && IsProjected(records, thread) && !IsProjected(ready, thread) {
      RepliesNeedQuestions(policy, ready, access, e);
    } else {
      AuthorizedReads(policy, records, ready, access, e);
    }
  }

  lemma AdmittedWhenReady(policy: Policy, access: Revocations, records: Records, id: Id)
    requires id in records
    ensures id in FactsOf(policy, access, records).authorized <==>
            Admitted(policy, access, records, records[id].event)
  {
    var facts := FactsOf(policy, access, records);
    var e := records[id].event;
    if e.content.threadId in records {
      ReadyMeans(policy, access, records, e.content.threadId);
    }
    AuthorizedOnceReady(policy, access, records, facts.ready, e);
  }

  lemma RootMeans(policy: Policy, access: Revocations, records: Records, thread: Id)
    ensures RootSurvives(FactsOf(policy, access, records), thread) <==>
            && IsProjected(records, thread)
            && (records[thread].event.content.kind == Question || records[thread].event.content.kind == Message)
            && ParentsUsable(records, records[thread].event)
            && Authorized(policy, records, access, records[thread].event)
  {
    if thread in records {
      ReadyMeans(policy, access, records, thread);
      AdmittedWhenReady(policy, access, records, thread);
    }
  }

  lemma RefusedMeans(policy: Policy, access: Revocations, records: Records, order: seq<Id>, id: Id)
    requires WellFormed(records) && id in records
    requires Admitted(policy, access, records, records[id].event)
    ensures id in RootFirst(records, order) && RootRefused(FactsOf(policy, access, records), records[id].event) <==>
            RefusedFirst(policy, access, records, order, records[id].event)
  {
    var e := records[id].event;
    var thread := e.content.threadId;
    if IsReply(e) {
      assert ProjectedAs(records, thread, Question);
      ReadyMeans(policy, access, records, thread);
      AdmittedWhenReady(policy, access, records, thread);
    }
  }

  /** For every order, every event and every status: what it means to end with it. */
  lemma FinalStatusExactly(policy: Policy, access: Revocations, records: Records, order: seq<Id>, id: Id)
    requires WellFormed(records) && id in records
    ensures StatusMeans(policy, access, records, order, id, DomainOutcome(policy, access, records, order)[id].status)
  {
    var facts := FactsOf(policy, access, records);
    var e := records[id].event;
    var final := FinalStatus(facts, id, id in RootFirst(records, order));
    assert DomainOutcome(policy, access, records, order)[id].status == final;
    ReadyMeans(policy, access, records, id);
    DomainKinds(e.content.kind);
    if records[id].status == Projected && DecidedLast(e.content.kind) && ParentsUsable(records, e) {
      StatusesFit(facts, id, id in RootFirst(records, order));
      AdmittedWhenReady(policy, access, records, id);
      InPlaceMeans(policy, access, records, id);
      if Admitted(policy, access, records, e) {
        RefusedMeans(policy, access, records, order, id);
      }
    }
  }

  lemma InPlaceMeans(policy: Policy, access: Revocations, records: Records, id: Id)
    requires id in records && records[id].event.id == id
    ensures var e := records[id].event;
            var facts := FactsOf(policy, access, records);
            InPlace(policy, access, records, e) <==>
              && (IsMessageState(e.content.kind) ==> id in facts.targetBelow)
              && (e.content.threadId != "" ==> RootSurvives(facts, e.content.threadId) && id in facts.threadBelow)
  {
    RootMeans(policy, access, records, records[id].event.content.threadId);
  }

  /** The same case split on the stage's facts. */
  lemma StatusesFit(facts: Facts, id: Id, rootFirst: bool)
    requires id in facts.ready && "" !in facts.ready
    requires facts.ready[id].status == Projected && DecidedLast(facts.ready[id].event.content.kind)
    ensures var e := facts.ready[id].event;
            var final := FinalStatus(facts, id, rootFirst);
            var refused := id !in facts.authorized || (rootFirst && RootRefused(facts, e));
            var inPlace := (IsMessageState(e.content.kind) ==> id in facts.targetBelow) &&
                           (e.content.threadId != "" ==> RootSurvives(facts, e.content.threadId) && id in facts.threadBelow);
            final == if refused then Unauthorized else if inPlace then Projected else Invalid
  {
  }

  class State {
    const policy: Policy
    var access: Revocations
    var records: Records

    constructor (policy: Policy, access: Revocations, records: Records)
      ensures this.policy == policy && this.access == access && this.records == records
    {
      this.policy, this.access, this.records := policy, access, records;
    }

    /** The local-control stage. */
    method ClassifyLocalControls(signing: seq<Id>, readiness: seq<Id>)
      requires IsOrderOf(signing, records) && IsOrderOf(readiness, records)
      modifies this`records
      ensures records == LocalControls(policy, old(records))
      ensures forall id | id in old(records) :: ControlMeans(policy, old(records), id, records[id].status)
    {
      forall id | id in records
        ensures ControlMeans(policy, records, id, LocalControls(policy, records)[id].status)
      {
        ControlStatusExactly(policy, records, id);
      }
      MarkUnsignedControls(signing);
      MarkUnreadyControls(readiness);
    }

    method MarkUnsignedControls(order: seq<Id>)
      requires IsOrderOf(order, records)
      modifies this`records
      ensures records == WithStatuses(old(records), ControlSigning(policy, old(records)))
    {
      ghost var start := records;
      ghost var target := ControlSigning(policy, start);
      OverlayEnds(start, target, order);
      for i := 0 to |order|
        invariant records == Overlay(start, target, Visited(order, i))
      {
        var id := order[i];
        OverlayStep(start, target, order, i);
        var record := records[id];
        if record.status == Projected && IsControl(record.event.content.kind) && !SignedByLocalRoot(policy, record.event) {
          records := records[id := record.(status := Unauthorized)];
        }
      }
    }

    /** The second half of the stage: collect first, mark afterwards. */
    method MarkUnreadyControls(order: seq<Id>)
      requires IsOrderOf(order, records)
      modifies this`records
      ensures records == WithStatuses(old(records), ControlReadiness(old(records)))
    {
      var unresolved := CollectUnreadyControls(order);
      MarkUnresolved(unresolved, ControlReadiness(records));
    }

    method CollectUnreadyControls(order: seq<Id>) returns (unresolved: seq<Id>)
      requires IsOrderOf(order, records)
      ensures forall id | id in unresolved :: id in records && ControlReadiness(records)[id] == Unresolved
      ensures forall id | id in records && id !in unresolved :: ControlReadiness(records)[id] == records[id].status
    {
      var walk := new Walk();
      unresolved := [];
      for i := 0 to |order|
        invariant walk.Sound(records)
        invariant forall id | id in unresolved :: id in records && ControlReadiness(records)[id] == Unresolved
        invariant forall id | id in order[..i] && id !in unresolved :: ControlReadiness(records)[id] == records[id].status
      {
        var record := records[order[i]];
        if record.status == Projected && IsControl(record.event.content.kind) {
          var usable := walk.AllParentsUsable(records, record.event);
          if !usable {
            unresolved := unresolved + [order[i]];
          }
        }
      }
      assert order[..|order|] == order;
    }

    method MarkUnresolved(unresolved: seq<Id>, ghost target: Statuses)
      requires target.Keys == records.Keys
      requires forall id | id in unresolved :: id in records && target[id] == Unresolved
      requires forall id | id in records && id !in unresolved :: target[id] == records[id].status
      modifies this`records
      ensures records == WithStatuses(old(records), target)
    {
      ghost var start := records;
      for i := 0 to |unresolved|
        invariant records.Keys == start.Keys
        invariant forall id | id in start ::
          records[id] == if id in unresolved[..i] then start[id].(status := Unresolved) else start[id]
      {
        records := records[unresolved[i] := records[unresolved[i]].(status := Unresolved)];
      }
      assert unresolved[..|unresolved|] == unresolved;
    }

    /** Loop one of the domain stage: set aside events with unusable ancestors, marking
        them in place while the shared memo is still in use. */
    method MarkUnready(order: seq<Id>)
      requires IsOrderOf(order, records)
      modifies this`records
      ensures records == WithStatuses(old(records), DomainReadiness(old(records)))
      ensures forall id | id in old(records) ::
        records[id].status ==
          if old(records)[id].status == Projected && DecidedLast(old(records)[id].event.content.kind) &&
             !ParentsUsable(old(records), old(records)[id].event)
          then Unresolved else old(records)[id].status
    {
      forall id | id in records
        ensures var r := records[id];
                DomainReadiness(records)[id] ==
                  if r.status == Projected && DecidedLast(r.event.content.kind) && !ParentsUsable(records, r.event)
                  then Unresolved else r.status
      {
        ReadinessMeans(records, id);
      }
      SetUnreadyAside(order);
    }

    method SetUnreadyAside(order: seq<Id>)
      requires IsOrderOf(order, records)
      modifies this`records
      ensures records == WithStatuses(old(records), DomainReadiness(old(records)))
    {
      ghost var start := records;
      ghost var target := DomainReadiness(start);
      OverlayEnds(start, target, order);
      var walk := new Walk();
      for i := 0 to |order|
        invariant records == Overlay(start, target, Visited(order, i))
        invariant walk.Sound(start)
      {
        var id := order[i];
        OverlayStep(start, target, order, i);
        var record := records[id];
        if record.status == Projected && IsDomain(record.event.content.kind) {
          MarkingUnreadyIsHarmless(start, Visited(order, i));
          var usable := walk.AllParentsUsable(records, record.event);
          if !usable {
            records := records[id := record.(status := Unresolved)];
          }
        }
      }
    }

    method Passes(e: Event, scan: seq<Id>) returns (ok: bool)
      requires IsOrderOf(scan, records)
      ensures ok <==> Authorized(policy, records, access, e)
    {
      ok := TestAuthorized(policy, records, scan, access, e);
    }

    /** Loop two: refuse unauthorized domain events. A reply reads its root's status as it
        is at that moment. */
    method MarkUnauthorized(order: seq<Id>, scan: seq<Id>, ghost facts: Facts)
      requires IsOrderOf(order, records) && IsOrderOf(scan, records)
      requires facts.ready == records && facts.authorized == AuthorizedIds(policy, access, records)
      modifies this`records
      ensures records == WithStatuses(facts.ready, AuthorizedStatuses(facts, RootFirst(facts.ready, order)))
    {
      ghost var target := AuthorizedStatuses(facts, RootFirst(facts.ready, order));
      OverlayEnds(facts.ready, target, order);
      for i := 0 to |order|
        invariant records == Overlay(facts.ready, target, Visited(order, i))
      {
        var id := order[i];
        OverlayStep(facts.ready, target, order, i);
        AuthorizationDecision(policy, access, facts, order, i);
        var record := records[id];
        if record.status == Projected && IsDomain(record.event.content.kind) {
          var ok := Passes(record.event, scan);
          if !ok {
            records := records[id := record.(status := Unauthorized)];
          }
        }
      }
    }

    method TestRooted(id: Id, ghost facts: Facts) returns (ok: bool)
      requires id in records
      requires facts.targetBelow == TargetBelowIds(records) && facts.threadBelow == ThreadBelowIds(records)
      ensures ok <==> !Unrooted(records, facts, id)
    {
      var content := records[id].event.content;
      if IsMessageState(content.kind) {
        var below := TestAtOrBelow(records, TargetOf(content.payload), id);
        if !below {
          return false;
        }
      }
      if content.threadId != "" {
        var below := TestAtOrBelow(records, content.threadId, id);
        if !IsProjected(records, content.threadId) ||
           !IsThreadRoot(records[content.threadId].event.content.kind) || !below
        {
          return false;
        }
      }
      return true;
    }

    /** Loop three: check message-state targets and thread roots. */
    method MarkUnrooted(order: seq<Id>, ghost facts: Facts, ghost target: Statuses)
      requires IsOrderOf(order, records) && IsRootingTarget(records, facts, target)
      requires facts.targetBelow == TargetBelowIds(records) && facts.threadBelow == ThreadBelowIds(records)
      modifies this`records
      ensures records == WithStatuses(old(records), target)
    {
      ghost var start := records;
      OverlayEnds(start, target, order);
      for i := 0 to |order|
        invariant records == Overlay(start, target, Visited(order, i))
      {
        var id := order[i];
        RootingStep(start, facts, target, order, i);
        var record := records[id];
        if record.status == Projected && IsDomain(record.event.content.kind) {
          var ok := TestRooted(id, facts);
          if !ok {
            records := records[id := record.(status := Invalid)];
          }
        }
      }
    }

    /** The domain stage: three loops, each over the records in its own order. */
    method ClassifyDomainEvents(first: seq<Id>, second: seq<Id>, third: seq<Id>, scan: seq<Id>)
      requires WellFormed(records)
      requires IsOrderOf(first, records) && IsOrderOf(second, records)
      requires IsOrderOf(third, records) && IsOrderOf(scan, records)
      modifies this`records
      ensures records == DomainOutcome(policy, access, old(records), second)
      ensures forall id | id in old(records) ::
        StatusMeans(policy, access, old(records), second, id, records[id].status)
    {
      forall id | id in records
        ensures StatusMeans(policy, access, records, second, id,
                            DomainOutcome(policy, access, records, second)[id].status)
      {
        FinalStatusExactly(policy, access, records, second, id);
      }
      ghost var facts, target := StagesCompose(policy, access, records, second);
      MarkUnready(first);
      MarkUnauthorized(second, scan, facts);
      MarkUnrooted(third, facts, target);
    }
  }

  lemma BelowIdsReadEvents(a: Records, b: Records)
    requires SameEvents(a, b)
    ensures TargetBelowIds(a) == TargetBelowIds(b) && ThreadBelowIds(a) == ThreadBelowIds(b)
  {
    SameGraph(a, b);
  }

  lemma LastStatusesWin(records: Records, first: Statuses, second: Statuses)
    requires first.Keys == second.Keys == records.Keys
    ensures WithStatuses(WithStatuses(records, first), second) == WithStatuses(records, second)
  {
  }

  lemma RootFirstReadsEvents(a: Records, b: Records, order: seq<Id>)
    requires SameEvents(a, b)
    ensures RootFirst(a, order) == RootFirst(b, order)
  {
  }

  /** What one loop leaves is what the next one starts from. */
  lemma StagesCompose(policy: Policy, access: Revocations, records: Records, order: seq<Id>)
      returns (facts: Facts, target: Statuses)
    requires WellFormed(records)
    ensures facts.ready == WithStatuses(records, DomainReadiness(records))
    ensures facts.authorized == AuthorizedIds(policy, access, facts.ready)
    ensures var authorized := WithStatuses(facts.ready, AuthorizedStatuses(facts, RootFirst(facts.ready, order)));
            && IsRootingTarget(authorized, facts, target)
            && facts.targetBelow == TargetBelowIds(authorized) && facts.threadBelow == ThreadBelowIds(authorized)
            && WithStatuses(authorized, target) == DomainOutcome(policy, access, records, order)
  {
    facts := FactsOf(policy, access, records);
    var rootFirst := RootFirst(facts.ready, order);
    target := FinalStatuses(facts, rootFirst);
    FinalIsRootingTarget(facts, rootFirst);
    BelowIdsReadEvents(records, WithStatuses(facts.ready, AuthorizedStatuses(facts, rootFirst)));
    RootFirstReadsEvents(records, facts.ready, order);
    LastStatusesWin(records, DomainReadiness(records), target);
    LastStatusesWin(facts.ready, AuthorizedStatuses(facts, rootFirst), target);
  }

  // ------------------------------------------------------------ what the outcome means

  /** Read off the final statuses alone: the event may stand. */
  ghost predicate Justified(policy: Policy, access: Revocations, after: Records, e: Event) {
    && Authorized(policy, after, access, e)
    && (IsMessageState(e.content.kind) ==> AtOrBelow(after, TargetOf(e.content.payload), e.id))
    && (e.content.threadId != "" ==>
          && IsProjected(after, e.content.threadId)
          && IsThreadRoot(after[e.content.threadId].event.content.kind)
          && AtOrBelow(after, e.content.threadId, e.id))
  }

  /** The outcome justifies itself, in every order: a domain event ends projected exactly
      when it came in projected on usable parents and the final statuses authorize it, with
      its target and its finally projected thread root among its causal ancestors. */
  lemma OutcomeJustifiesItself(policy: Policy, access: Revocations, records: Records, order: seq<Id>, id: Id)
    requires WellFormed(records) && id in records && IsDomain(records[id].event.content.kind)
    ensures var after := DomainOutcome(policy, access, records, order);
            after[id].status == Projected <==>
              && records[id].status == Projected
              && ParentsUsable(records, records[id].event)
              && Justified(policy, access, after, records[id].event)
  {
    var facts := FactsOf(policy, access, records);
    var after := DomainOutcome(policy, access, records, order);
    ProjectedFinally(facts, id, id in RootFirst(records, order));
    OutcomeReadsFacts(policy, access, records, order, id);
    FinalRoots(policy, access, records, order, records[id].event.content.threadId);
    AuthorizedFinally(policy, access, facts, after, id);
    FactsJustify(facts, after, id, Authorized(policy, after, access, after[id].event));
  }

  /** The stage's facts read off the final statuses, given whether those authorize the event. */
  lemma FactsJustify(facts: Facts, after: Records, id: Id, authorized: bool)
    requires SameEvents(facts.ready, after) && id in after && "" !in after
    requires var thread := after[id].event.content.threadId;
             && (IsProjected(after, thread) && IsThreadRoot(after[thread].event.content.kind) <==>
                 RootSurvives(facts, thread))
             && (IsProjected(after, thread) || !IsReply(after[id].event) ==> (authorized <==> id in facts.authorized))
             && (authorized && IsReply(after[id].event) ==> IsProjected(after, thread))
             && (id in facts.authorized && IsReply(after[id].event) ==> thread in after)
    ensures var content := after[id].event.content;
            (authorized &&
             (content.threadId != "" ==>
                IsProjected(after, content.threadId) && IsThreadRoot(after[content.threadId].event.content.kind))) <==>
            (id in facts.authorized && (content.threadId != "" ==> RootSurvives(facts, content.threadId)))
  {
  }

  lemma ProjectedFinally(facts: Facts, id: Id, rootFirst: bool)
    requires id in facts.ready && "" !in facts.ready && IsDomain(facts.ready[id].event.content.kind)
    ensures var content := facts.ready[id].event.content;
            FinalStatus(facts, id, rootFirst) == Projected <==>
              && facts.ready[id].status == Projected
              && id in facts.authorized
              && (IsMessageState(content.kind) ==> id in facts.targetBelow)
              && (content.threadId != "" ==> RootSurvives(facts, content.threadId) && id in facts.threadBelow)
  {
  }

  lemma OutcomeReadsFacts(policy: Policy, access: Revocations, records: Records, order: seq<Id>, id: Id)
    requires WellFormed(records) && id in records && IsDomain(records[id].event.content.kind)
    ensures var facts := FactsOf(policy, access, records);
            var after := DomainOutcome(policy, access, records, order);
            var e := records[id].event;
            && SameEvents(facts.ready, after) && facts.ready[id].event == e
            && facts.authorized == AuthorizedIds(policy, access, facts.ready)
            && (forall x | x in after && !IsDomain(after[x].event.content.kind) ::
                  after[x].status == facts.ready[x].status)
            && after[id].status == FinalStatus(facts, id, id in RootFirst(records, order))
            && (facts.ready[id].status == Projected <==> records[id].status == Projected && ParentsUsable(records, e))
            && (id in facts.targetBelow <==> AtOrBelow(after, TargetOf(e.content.payload), id))
            && (id in facts.threadBelow <==> AtOrBelow(after, e.content.threadId, id))
  {
    BelowIdsReadEvents(records, DomainOutcome(policy, access, records, order));
  }

  /** A thread root is projected at the end exactly when it survives authorization. */
  lemma FinalRoots(policy: Policy, access: Revocations, records: Records, order: seq<Id>, thread: Id)
    requires WellFormed(records)
    ensures var after := DomainOutcome(policy, access, records, order);
            && (IsProjected(after, thread) ==> IsProjected(FactsOf(policy, access, records).ready, thread))
            && (IsProjected(after, thread) && IsThreadRoot(after[thread].event.content.kind) <==>
                RootSurvives(FactsOf(policy, access, records), thread))
  {
    var facts := FactsOf(policy, access, records);
    if thread in records && IsThreadRoot(records[thread].event.content.kind) {
      RootIsStable(facts, thread, thread in RootFirst(records, order));
    }
  }

  lemma AuthorizedFinally(policy: Policy, access: Revocations, facts: Facts, after: Records, id: Id)
    requires SameEvents(facts.ready, after) && id in after
    requires facts.authorized == AuthorizedIds(policy, access, facts.ready)
    requires forall x | x in after && !IsDomain(after[x].event.content.kind) :: after[x].status == facts.ready[x].status
    requires IsProjected(after, after[id].event.content.threadId) ==> IsProjected(facts.ready, after[id].event.content.threadId)
    ensures IsProjected(after, after[id].event.content.threadId) || !IsReply(after[id].event) ==>
            (Authorized(policy, after, access, after[id].event) <==> id in facts.authorized)
    ensures Authorized(policy, after, access, after[id].event) && IsReply(after[id].event) ==>
            IsProjected(after, after[id].event.content.threadId)
    ensures id in facts.authorized && IsReply(after[id].event) ==> after[id].event.content.threadId in after
  {
    var e := after[id].event;
    if IsProjected(after, e.content.threadId) || !IsReply(e) {
      AuthorizedReads(policy, facts.ready, after, access, e);
    }
  }
}
