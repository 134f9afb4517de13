/**
 Invalidation notices: filtering and merging, the one-slot queue of each subscriber, and the
 hub that publishes under its lock while the write loops drain without it.
 */
module SubscriptionHub {
  import opened Options
  import opened Sorting

  type Id = string
  type Topic = string

  datatype Invalidation = Invalidation(revision: nat, topics: seq<Topic>, fullSnapshot: bool)

  const NOTHING := Invalidation(0, [], false)

  // ------------------------------------------------------------------ merging and filtering

  function Deduped(s: seq<Topic>): (r: seq<Topic>)
    ensures Distinct(r) && forall t :: t in r <==> t in s
  {
    if s == [] then []
    else
      var front := Deduped(s[..|s| - 1]);
      assert s == s[..|s| - 1] + [s[|s| - 1]];
      if s[|s| - 1] in front then front else front + [s[|s| - 1]]
  }

  function Max(a: nat, b: nat): nat {
    if a > b then a else b
  }

  function Merged(left: Invalidation, right: Invalidation): (r: Invalidation)
    ensures left.revision <= r.revision && right.revision <= r.revision
    ensures r.revision == left.revision || r.revision == right.revision
    ensures forall t :: t in r.topics <==> t in left.topics || t in right.topics
    ensures Distinct(r.topics) && (r.fullSnapshot <==> left.fullSnapshot || right.fullSnapshot)
  {
    Invalidation(Max(left.revision, right.revision), Deduped(left.topics + right.topics),
                 left.fullSnapshot || right.fullSnapshot)
  }

  lemma DedupedExtends(s: seq<Topic>, t: Topic)
    ensures Deduped(s + [t]) == if t in s then Deduped(s) else Deduped(s) + [t]
  {
    assert (s + [t])[..|s|] == s;
  }

  /** Adds the topics not seen so far. */
  method AddTopics(topics: seq<Topic>, before: seq<Topic>, seen: set<Topic>, ghost source: seq<Topic>)
    returns (result: seq<Topic>, nowSeen: set<Topic>)
    requires before == Deduped(source) && forall t :: t in seen <==> t in source
    ensures result == Deduped(source + topics) && forall t :: t in nowSeen <==> t in source + topics
  {
    result, nowSeen := before, seen;
    assert source + topics[..0] == source;
    for i := 0 to |topics|
      invariant result == Deduped(source + topics[..i])
      invariant forall t :: t in nowSeen <==> t in source + topics[..i]
    {
      DedupedExtends(source + topics[..i], topics[i]);
      assert source + topics[..i + 1] == source + topics[..i] + [topics[i]];
      if topics[i] !in nowSeen {
        nowSeen := nowSeen + {topics[i]};
        result := result + [topics[i]];
      }
    }
    assert topics[..|topics|] == topics;
  }

  method MergeInvalidations(left: Invalidation, right: Invalidation) returns (result: Invalidation)
    ensures result == Merged(left, right)
  {
    var topics, seen := AddTopics(left.topics, [], {}, []);
    assert [] + left.topics == left.topics;
    topics, seen := AddTopics(right.topics, topics, seen, left.topics);
    result := Invalidation(if left.revision > right.revision then left.revision else right.revision, topics,
                           left.fullSnapshot || right.fullSnapshot);
  }

  function Chosen(s: seq<Topic>, wanted: set<Topic>): (r: seq<Topic>)
    ensures forall t :: t in r <==> t in s && t in wanted
  {
    if s == [] then []
    else
      var front := Chosen(s[..|s| - 1], wanted);
      assert s == s[..|s| - 1] + [s[|s| - 1]];
      if s[|s| - 1] in wanted then front + [s[|s| - 1]] else front
  }

  /** A subscriber without topics wants everything. */
  function Filtered(wanted: set<Topic>, change: Invalidation): (r: Invalidation)
    ensures r.revision == change.revision
    ensures forall t :: t in r.topics <==> t in change.topics && (wanted == {} || t in wanted)
    ensures r.fullSnapshot <==> change.fullSnapshot && wanted == {}
  {
    if wanted == {} then change else Invalidation(change.revision, Chosen(change.topics, wanted), false)
  }

  // ------------------------------------------------------------------------ one subscriber

  /** A change handed to a subscriber: how many notices were drained by then, and whether the
      subscriber was still waiting for its activation. */
  datatype Entry = Entry(change: Invalidation, drained: nat, early: bool)

  /** `inHand` is the notice the lock holder carries between its receive and its send. */
  datatype Sub = Sub(
    topics: set<Topic>, active: bool, acknowledged: nat, pending: Invalidation,
    queue: Option<Invalidation>, inHand: Option<Invalidation>, drained: seq<Invalidation>, log: seq<Entry>)

  function Registered(topics: set<Topic>): Sub {
    Sub(topics, false, 0, NOTHING, None, None, [], [])
  }

  /** First half of enqueueing: empty the slot and merge. */
  function Take(s: Sub, change: Invalidation): Sub {
    s.(queue := None, inHand := Some(if s.queue.Some? then Merged(s.queue.value, change) else change))
  }

  /** Second half: fill the slot, unless it is occupied. */
  function Put(s: Sub): Sub
    requires s.inHand.Some?
  {
    s.(queue := if s.queue.None? then s.inHand else s.queue, inHand := None)
  }

  function Visit(s: Sub, change: Invalidation): Sub {
    var filtered := Filtered(s.topics, change);
    var noted := s.(log := s.log + [Entry(filtered, |s.drained|, !s.active)]);
    if filtered.topics == [] then noted
    else if !s.active then noted.(pending := Merged(s.pending, filtered))
    else Take(noted, filtered)
  }

  function Activated(s: Sub, acknowledged: nat): Sub {
    var awake := s.(active := true, acknowledged := acknowledged, pending := NOTHING);
    if s.pending.revision > acknowledged then Take(awake, s.pending) else awake
  }

  function Drain(s: Sub): Sub
    requires s.queue.Some?
  {
    s.(queue := None, drained := s.drained + [s.queue.value])
  }

  predicate Carries(notice: Invalidation, t: Topic, revision: nat) {
    t in notice.topics && notice.revision >= revision
  }

  /** The topic is on its way, or has been drained since the change was published. */
  predicate Kept(s: Sub, t: Topic, revision: nat, since: nat) {
    || Carries(s.pending, t, revision)
    || (s.queue.Some? && Carries(s.queue.value, t, revision))
    || (s.inHand.Some? && Carries(s.inHand.value, t, revision))
    || (exists j | since <= j < |s.drained| :: Carries(s.drained[j], t, revision))
  }

  /** The acknowledged snapshot already covers the change. */
  predicate Covered(s: Sub, e: Entry) {
    e.early && s.active && e.change.revision <= s.acknowledged
  }

  predicate EntryKept(s: Sub, e: Entry) {
    Covered(s, e) || forall t | t in e.change.topics :: Kept(s, t, e.change.revision, e.drained)
  }

  predicate Quiet(s: Sub) {
    s.queue.None? && s.inHand.None? && s.drained == []
  }

  predicate SubInvariant(s: Sub) {
    && (s.inHand.Some? ==> s.queue.None?)
    && (if s.active then s.pending == NOTHING else Quiet(s))
    && (forall i | 0 <= i < |s.log| :: s.log[i].drained <= |s.drained| && EntryKept(s, s.log[i]))
    && (!s.active ==> forall i | 0 <= i < |s.log| :: s.log[i].early)
  }

  /** Nothing is announced that was not published to this subscriber. */
  predicate Justified(log: seq<Entry>, notice: Invalidation) {
    && (forall t | t in notice.topics :: exists i | 0 <= i < |log| :: t in log[i].change.topics)
    && (notice.revision == 0 ||
        exists i | 0 <= i < |log| :: log[i].change.revision == notice.revision && log[i].change.topics != [])
    && (notice.topics != [] ==> notice.revision > 0)
  }

  predicate AllJustified(s: Sub) {
    && Justified(s.log, s.pending)
    && (s.queue.Some? ==> Justified(s.log, s.queue.value))
    && (s.inHand.Some? ==> Justified(s.log, s.inHand.value))
    && (forall j | 0 <= j < |s.drained| :: Justified(s.log, s.drained[j]))
  }

  /** A step that only moves or merges notices keeps an entry. */
  lemma MovesKeepEntry(s: Sub, after: Sub, e: Entry)
    requires EntryKept(s, e) && (Covered(s, e) ==> Covered(after, e))
    requires forall t, revision: nat, since: nat | Kept(s, t, revision, since) && since <= |s.drained| ::
               Kept(after, t, revision, since)
    requires e.drained <= |s.drained|
    ensures EntryKept(after, e)
  {
  }

  lemma TakeKeeps(s: Sub, change: Invalidation, t: Topic, revision: nat, since: nat)
    requires s.inHand.None?
    ensures Kept(s, t, revision, since) ==> Kept(Take(s, change), t, revision, since)
  {
  }

  lemma VisitKeeps(s: Sub, change: Invalidation)
    requires SubInvariant(s) && s.inHand.None?
    ensures SubInvariant(Visit(s, change))
  {
    var after := Visit(s, change);
    var filtered := Filtered(s.topics, change);
    forall t, revision: nat, since: nat | Kept(s, t, revision, since)
      ensures Kept(after, t, revision, since)
    {
      TakeKeeps(s, filtered, t, revision, since);
    }
    forall i | 0 <= i < |after.log|
      ensures EntryKept(after, after.log[i])
    {
      if i < |s.log| {
        MovesKeepEntry(s, after, s.log[i]);
      }
    }
  }

  lemma PutKeeps(s: Sub)
    requires SubInvariant(s) && s.inHand.Some?
    ensures SubInvariant(Put(s))
  {
    forall i | 0 <= i < |s.log|
      ensures EntryKept(Put(s), s.log[i])
    {
      MovesKeepEntry(s, Put(s), s.log[i]);
    }
  }

  lemma DrainKeeps(s: Sub)
    requires SubInvariant(s) && s.queue.Some?
    ensures SubInvariant(Drain(s))
  {
    var after := Drain(s);
    forall t, revision: nat, since: nat | Kept(s, t, revision, since) && since <= |s.drained|
      ensures Kept(after, t, revision, since)
    {
      assert after.drained[|s.drained|] == s.queue.value;
      assert forall j | 0 <= j < |s.drained| :: after.drained[j] == s.drained[j];
    }
    forall i | 0 <= i < |s.log|
      ensures EntryKept(after, s.log[i])
    {
      MovesKeepEntry(s, after, s.log[i]);
    }
  }

  lemma ActivateKeeps(s: Sub, acknowledged: nat)
    requires SubInvariant(s) && !s.active
    ensures SubInvariant(Activated(s, acknowledged))
  {
    var after := Activated(s, acknowledged);
    forall i | 0 <= i < |s.log|
      ensures EntryKept(after, s.log[i])
    {
      assert EntryKept(s, s.log[i]) && s.log[i].early;
    }
  }

  lemma JustifiedGrows(log: seq<Entry>, e: Entry, notice: Invalidation)
    requires Justified(log, notice)
    ensures Justified(log + [e], notice)
  {
    forall t | t in notice.topics
      ensures exists i | 0 <= i < |log + [e]| :: t in (log + [e])[i].change.topics
    {
      var i :| 0 <= i < |log| && t in log[i].change.topics;
      assert (log + [e])[i] == log[i];
    }
    if notice.revision != 0 {
      var i :| 0 <= i < |log| && log[i].change.revision == notice.revision && log[i].change.topics != [];
      assert (log + [e])[i] == log[i];
    }
  }

  lemma VisitJustified(s: Sub, change: Invalidation)
    requires AllJustified(s) && change.revision > 0
    ensures AllJustified(Visit(s, change))
  {
    var filtered := Filtered(s.topics, change);
    var e := Entry(filtered, |s.drained|, !s.active);
    var log := s.log + [e];
    assert filtered.topics != [] ==> Justified(log, filtered) by {
      assert log[|s.log|] == e;
    }
    JustifiedGrows(s.log, e, s.pending);
    if s.queue.Some? {
      JustifiedGrows(s.log, e, s.queue.value);
    }
    if s.inHand.Some? {
      JustifiedGrows(s.log, e, s.inHand.value);
    }
    forall j | 0 <= j < |s.drained|
      ensures Justified(log, s.drained[j])
    {
      JustifiedGrows(s.log, e, s.drained[j]);
    }
    if filtered.topics != [] {
      MergedJustified(log, s.pending, filtered);
      if s.queue.Some? {
        MergedJustified(log, s.queue.value, filtered);
      }
    }
  }

  lemma MergedJustified(log: seq<Entry>, left: Invalidation, right: Invalidation)
    requires Justified(log, left) && Justified(log, right)
    ensures Justified(log, Merged(left, right))
  {
  }

  lemma ActivateJustified(s: Sub, acknowledged: nat)
    requires AllJustified(s)
    ensures AllJustified(Activated(s, acknowledged))
  {
    if s.queue.Some? {
      MergedJustified(s.log, s.queue.value, s.pending);
    }
  }

  // ------------------------------------------------------------------------------- the hub

  datatype Lock = Free | Publishing(change: Invalidation, waiting: set<Id>) | Activating

  /** `published` lists the changes published so far; `since` says how many there were when a
      subscriber registered. */
  datatype Hub = Hub(subs: map<Id, Sub>, since: map<Id, nat>, lock: Lock, published: seq<Invalidation>)

  const NEW_HUB := Hub(map[], map[], Free, [])

  datatype Action =
    | Register(id: Id, topics: set<Topic>)
    | Publish(change: Invalidation)
    | Next(id: Id)
    | Send(id: Id)
    | Activate(id: Id, acknowledged: nat)
    | Unlock
    | Receive(id: Id)
    | Close(id: Id)

  predicate HandsFree(h: Hub) {
    forall id | id in h.subs :: h.subs[id].inHand.None?
  }

  /** One step; None when it is not possible. Registering, publishing, activating and closing
      need the lock; a write loop receives at any time once its subscriber is active. */
  function Act(h: Hub, a: Action): Option<Hub> {
    match a
    case Register(id, topics) =>
      if h.lock.Free? && id !in h.subs
      then Some(h.(subs := h.subs[id := Registered(topics)], since := h.since[id := |h.published|])) else None
    case Publish(change) =>
      if !h.lock.Free? then None
      else if change.revision == 0 then Some(h)
      else Some(h.(lock := Publishing(change, h.subs.Keys), published := h.published + [change]))
    case Next(id) =>
      if h.lock.Publishing? && id in h.lock.waiting && id in h.subs && HandsFree(h) then
        Some(h.(subs := h.subs[id := Visit(h.subs[id], h.lock.change)],
                lock := Publishing(h.lock.change, h.lock.waiting - {id})))
      else None
    case Send(id) =>
      if id in h.subs && h.subs[id].inHand.Some? then Some(h.(subs := h.subs[id := Put(h.subs[id])])) else None
    case Activate(id, acknowledged) =>
      if h.lock.Free? && id in h.subs && !h.subs[id].active
      then Some(h.(subs := h.subs[id := Activated(h.subs[id], acknowledged)], lock := Activating)) else None
    case Unlock =>
      if !h.lock.Free? && HandsFree(h) && (h.lock.Publishing? ==> h.lock.waiting == {})
      then Some(h.(lock := Free)) else None
    case Receive(id) =>
      if id in h.subs && h.subs[id].active && h.subs[id].queue.Some?
      then Some(h.(subs := h.subs[id := Drain(h.subs[id])])) else None
    case Close(id) =>
      if h.lock.Free? && id in h.subs then Some(h.(subs := h.subs - {id}, since := h.since - {id})) else None
  }

  function Run(actions: seq<Action>): Option<Hub> {
    if actions == [] then Some(NEW_HUB)
    else
      var before := Run(actions[..|actions| - 1]);
      if before.None? then None else Act(before.value, actions[|actions| - 1])
  }

  /** How many of the published changes the subscriber has been shown. */
  function Shown(h: Hub, id: Id): int {
    |h.published| - (if h.lock.Publishing? && id in h.lock.waiting then 1 else 0)
  }

  /** The log of a subscriber is what it was shown since it registered. */
  predicate LogIs(s: Sub, published: seq<Invalidation>, since: nat, shown: int) {
    && since <= shown <= |published| && |s.log| == shown - since
    && (forall n | since <= n < shown :: s.log[n - since].change == Filtered(s.topics, published[n]))
  }

  predicate LogComplete(h: Hub, id: Id)
    requires id in h.subs && id in h.since
  {
    LogIs(h.subs[id], h.published, h.since[id], Shown(h, id))
  }

  predicate LockInvariant(h: Hub) {
    && (h.lock.Publishing? ==>
          && h.published != [] && h.lock.change == h.published[|h.published| - 1]
          && h.lock.change.revision > 0 && h.lock.waiting <= h.subs.Keys)
    && (h.lock.Free? ==> HandsFree(h))
  }

  ghost predicate HubInvariant(h: Hub) {
    && h.since.Keys == h.subs.Keys && LockInvariant(h)
    && (forall id | id in h.subs :: SubInvariant(h.subs[id]) && AllJustified(h.subs[id]) && LogComplete(h, id))
  }

  lemma StepKeepsSubs(h: Hub, a: Action, id: Id)
    requires HubInvariant(h) && Act(h, a).Some? && id in Act(h, a).value.subs
    ensures SubInvariant(Act(h, a).value.subs[id]) && AllJustified(Act(h, a).value.subs[id])
  {
    match a
    case Next(which) =>
      VisitKeeps(h.subs[which], h.lock.change);
      VisitJustified(h.subs[which], h.lock.change);
    case Send(which) => PutKeeps(h.subs[which]);
    case Activate(which, acknowledged) =>
      ActivateKeeps(h.subs[which], acknowledged);
      ActivateJustified(h.subs[which], acknowledged);
    case Receive(which) => DrainKeeps(h.subs[which]);
    case _ =>
  }

  lemma NextKeepsLog(h: Hub, which: Id, id: Id)
    requires id in h.subs && id in h.since && LogComplete(h, id) && LockInvariant(h) && Act(h, Next(which)).Some?
    ensures LogComplete(Act(h, Next(which)).value, id)
  {
  }

  lemma PublishKeepsLog(h: Hub, change: Invalidation, id: Id)
    requires id in h.subs && id in h.since && LogComplete(h, id) && Act(h, Publish(change)).Some?
    ensures LogComplete(Act(h, Publish(change)).value, id)
  {
  }

  /** The other steps neither publish nor show anything. */
  lemma QuietKeepsLog(h: Hub, a: Action, id: Id)
    requires id in h.subs && id in h.since && LogComplete(h, id)
    requires Act(h, a).Some? && !a.Next? && !a.Publish? && id in Act(h, a).value.subs
    ensures id in Act(h, a).value.since && LogComplete(Act(h, a).value, id)
  {
    var after := Act(h, a).value;
    assert after.subs[id].log == h.subs[id].log && after.subs[id].topics == h.subs[id].topics;
    assert after.published == h.published && after.since[id] == h.since[id] && Shown(after, id) == Shown(h, id);
  }

  lemma StepKeepsLog(h: Hub, a: Action, id: Id)
    requires HubInvariant(h) && Act(h, a).Some? && id in Act(h, a).value.subs
    ensures id in Act(h, a).value.since && LogComplete(Act(h, a).value, id)
  {
    if a.Next? {
      NextKeepsLog(h, a.id, id);
    } else if a.Publish? {
      PublishKeepsLog(h, a.change, id);
    } else if id in h.subs {
      QuietKeepsLog(h, a, id);
    }
  }

  lemma StepKeepsLock(h: Hub, a: Action)
    requires h.since.Keys == h.subs.Keys && LockInvariant(h) && Act(h, a).Some?
    ensures Act(h, a).value.since.Keys == Act(h, a).value.subs.Keys && LockInvariant(Act(h, a).value)
  {
  }

  lemma StepKeepsHub(h: Hub, a: Action)
    requires HubInvariant(h) && Act(h, a).Some?
    ensures HubInvariant(Act(h, a).value)
  {
    var after := Act(h, a).value;
    StepKeepsLock(h, a);
    forall id | id in after.subs
      ensures SubInvariant(after.subs[id]) && AllJustified(after.subs[id]) && id in after.since && LogComplete(after, id)
    {
      StepKeepsSubs(h, a, id);
      StepKeepsLog(h, a, id);
    }
  }

  lemma {:induction false} RunsKeepHub(actions: seq<Action>)
    requires Run(actions).Some?
    ensures HubInvariant(Run(actions).value)
  {
    if actions != [] {
      var n := |actions| - 1;
      RunsKeepHub(actions[..n]);
      StepKeepsHub(Run(actions[..n]).value, actions[n]);
    }
  }

  // ---------------------------------------------------------------------------- main results

  /** In every interleaving, a wanted topic of a change shown to a subscriber is pending, in the
      lock holder's hand, queued, or drained since, in a notice at least as new, unless the
      subscriber's acknowledged snapshot covers a change that came before its activation. */
  lemma NothingIsLost(actions: seq<Action>, id: Id, n: nat, t: Topic)
    requires Run(actions).Some? && id in Run(actions).value.subs && id in Run(actions).value.since
    requires var h := Run(actions).value;
             && h.since[id] <= n < Shown(h, id) && t in h.published[n].topics
             && (h.subs[id].topics == {} || t in h.subs[id].topics)
    ensures var h := Run(actions).value;
            var at := n - h.since[id];
            && at < |h.subs[id].log|
            && var e := h.subs[id].log[at];
               && e.change.revision == h.published[n].revision
               && (Covered(h.subs[id], e) || Kept(h.subs[id], t, h.published[n].revision, e.drained))
  {
    RunsKeepHub(actions);
    var h := Run(actions).value;
    assert LogComplete(h, id) && SubInvariant(h.subs[id]);
    assert EntryKept(h.subs[id], h.subs[id].log[n - h.since[id]]);
  }

  /** When the publisher releases the lock, every subscriber has been shown every change. */
  lemma EveryoneIsShown(actions: seq<Action>, id: Id)
    requires Run(actions + [Unlock]).Some? && id in Run(actions + [Unlock]).value.subs
    ensures Shown(Run(actions + [Unlock]).value, id) == |Run(actions + [Unlock]).value.published|
  {
    assert (actions + [Unlock])[..|actions|] == actions;
  }

  /** A send always finds its slot empty: the one-slot queue never drops a notice. */
  lemma SendNeverDrops(actions: seq<Action>, id: Id)
    requires Run(actions + [Send(id)]).Some?
    ensures Run(actions).Some? && id in Run(actions).value.subs && id in Run(actions + [Send(id)]).value.subs
    ensures Run(actions).value.subs[id].queue.None? && Run(actions).value.subs[id].inHand.Some?
    ensures Run(actions + [Send(id)]).value.subs[id].queue == Run(actions).value.subs[id].inHand
  {
    assert (actions + [Send(id)])[..|actions|] == actions;
    RunsKeepHub(actions);
    assert SubInvariant(Run(actions).value.subs[id]);
  }

  /** Between the two halves of an enqueue the slot is empty, so the write loop has nothing to
      receive: running both halves as one section loses no interleaving. */
  lemma NoReceiveBetweenHalves(actions: seq<Action>, id: Id)
    requires Run(actions).Some? && id in Run(actions).value.subs && Run(actions).value.subs[id].inHand.Some?
    ensures Act(Run(actions).value, Receive(id)).None?
  {
    RunsKeepHub(actions);
    assert SubInvariant(Run(actions).value.subs[id]);
  }

  /** Every drained notice names only topics that were published to the subscriber since it
      registered and that it wants, and carries the revision of one of those changes. */
  lemma NothingIsInvented(actions: seq<Action>, id: Id, j: nat, t: Topic)
    requires Run(actions).Some? && id in Run(actions).value.subs && id in Run(actions).value.since
    requires j < |Run(actions).value.subs[id].drained| && t in Run(actions).value.subs[id].drained[j].topics
    ensures var h := Run(actions).value;
            && (exists n | h.since[id] <= n < |h.published| :: t in Filtered(h.subs[id].topics, h.published[n]).topics)
            && (exists n | h.since[id] <= n < |h.published| :: h.published[n].revision == h.subs[id].drained[j].revision)
  {
    RunsKeepHub(actions);
    var h := Run(actions).value;
    assert LogComplete(h, id) && AllJustified(h.subs[id]);
    assert Justified(h.subs[id].log, h.subs[id].drained[j]);
    var i :| 0 <= i < |h.subs[id].log| && t in h.subs[id].log[i].change.topics;
    LogEntry(h, id, i);
    var k :| 0 <= k < |h.subs[id].log| && h.subs[id].log[k].change.revision == h.subs[id].drained[j].revision;
    LogEntry(h, id, k);
  }

  lemma LogEntry(h: Hub, id: Id, i: nat)
    requires id in h.subs && id in h.since && LogComplete(h, id) && i < |h.subs[id].log|
    ensures h.since[id] + i < |h.published|
    ensures h.subs[id].log[i].change == Filtered(h.subs[id].topics, h.published[h.since[id] + i])
  {
    assert h.subs[id].log[h.since[id] + i - h.since[id]] == h.subs[id].log[i];
  }

  /** The subscriber wants some topic of the change. */
  predicate Wants(s: Sub, change: Invalidation) {
    exists t | t in change.topics :: s.topics == {} || t in s.topics
  }

  lemma PendingIsNews(s: Sub, acknowledged: nat)
    requires SubInvariant(s) && AllJustified(s) && !s.active
    ensures s.pending.revision > acknowledged <==>
            exists i | 0 <= i < |s.log| :: s.log[i].change.topics != [] && s.log[i].change.revision > acknowledged
  {
    forall i | 0 <= i < |s.log| && s.log[i].change.topics != []
      ensures s.log[i].change.revision <= s.pending.revision
    {
      assert EntryKept(s, s.log[i]) && s.log[i].change.topics[0] in s.log[i].change.topics;
    }
  }

  /** In every interleaving, an activation sends a notice exactly when some change that was
      shown to the subscriber so far, and that it wants, is newer than what it acknowledged;
      otherwise the subscriber is left undisturbed. */
  lemma ActivationSendsNews(actions: seq<Action>, id: Id, acknowledged: nat)
    requires Run(actions + [Activate(id, acknowledged)]).Some?
    ensures Run(actions).Some? && id in Run(actions).value.subs && id in Run(actions).value.since
    ensures id in Run(actions + [Activate(id, acknowledged)]).value.subs
    ensures var h, t := Run(actions).value, Run(actions + [Activate(id, acknowledged)]).value.subs[id];
            && t.active && t.queue.None? && t.drained == []
            && (t.inHand.Some? <==>
                exists n | h.since[id] <= n < |h.published| ::
                  Wants(h.subs[id], h.published[n]) && h.published[n].revision > acknowledged)
  {
    assert (actions + [Activate(id, acknowledged)])[..|actions|] == actions;
    RunsKeepHub(actions);
    var h := Run(actions).value;
    assert SubInvariant(h.subs[id]) && AllJustified(h.subs[id]) && LogComplete(h, id);
    PendingIsNews(h.subs[id], acknowledged);
    LogIsNews(h, id, acknowledged);
  }

  lemma LogIsNews(h: Hub, id: Id, acknowledged: nat)
    requires id in h.subs && id in h.since && LogComplete(h, id) && h.lock.Free?
    ensures (exists i | 0 <= i < |h.subs[id].log| ::
               h.subs[id].log[i].change.topics != [] && h.subs[id].log[i].change.revision > acknowledged) <==>
            (exists n | h.since[id] <= n < |h.published| ::
               Wants(h.subs[id], h.published[n]) && h.published[n].revision > acknowledged)
  {
    var s := h.subs[id];
    if i :| 0 <= i < |s.log| && s.log[i].change.topics != [] && s.log[i].change.revision > acknowledged {
      LogEntry(h, id, i);
      WantsFiltered(s, h.published[h.since[id] + i]);
    }
    if n :| h.since[id] <= n < |h.published| && Wants(s, h.published[n]) && h.published[n].revision > acknowledged {
      LogEntry(h, id, n - h.since[id]);
      WantsFiltered(s, h.published[n]);
    }
  }

  lemma WantsFiltered(s: Sub, change: Invalidation)
    ensures Filtered(s.topics, change).topics != [] <==> Wants(s, change)
  {
    var filtered := Filtered(s.topics, change);
    if filtered.topics != [] {
      assert filtered.topics[0] in filtered.topics;
    }
  }

  // ----------------------------------------------------------------- the objects themselves

  /** A visit or an activation together with the send that may follow it. */
  function Settled(s: Sub): Sub {
    if s.inHand.Some? then Put(s) else s
  }

  /** A subscriber, with its sections run without a drain in between. */
  class Subscriber {
    const topics: set<Topic>
    var active: bool
    var pending: Invalidation
    var queue: Option<Invalidation>
    ghost var acknowledged: nat
    ghost var drained: seq<Invalidation>
    ghost var log: seq<Entry>

    ghost function View(): Sub
      reads this
    {
      Sub(topics, active, acknowledged, pending, queue, None, drained, log)
    }

    constructor (wanted: seq<Topic>)
      ensures View() == Registered(set t | t in wanted)
    {
      topics := set t | t in wanted;
      active, pending, queue := false, NOTHING, None;
      acknowledged, drained, log := 0, [], [];
    }

    method Filter(change: Invalidation) returns (filtered: Invalidation)
      ensures filtered == Filtered(topics, change)
    {
      if topics == {} {
        return change;
      }
      var chosen: seq<Topic> := [];
      for i := 0 to |change.topics|
        invariant chosen == Chosen(change.topics[..i], topics)
      {
        assert change.topics[..i + 1][..i] == change.topics[..i];
        if change.topics[i] in topics {
          chosen := chosen + [change.topics[i]];
        }
      }
      assert change.topics[..|change.topics|] == change.topics;
      filtered := Invalidation(change.revision, chosen, false);
    }

    method Enqueue(change: Invalidation)
      modifies this`queue
      ensures View() == Put(Take(old(View()), change))
    {
      var notice := change;
      if queue.Some? {
        notice := MergeInvalidations(queue.value, change);
        queue := None;
      }
      queue := Some(notice);
    }

    /** What publishing a change does to one subscriber. */
    method Accept(change: Invalidation)
      modifies this
      ensures View() == Settled(Visit(old(View()), change))
    {
      var filtered := Filter(change);
      log := log + [Entry(filtered, |drained|, !active)];
      if |filtered.topics| == 0 {
        return;
      }
      if !active {
        pending := MergeInvalidations(pending, filtered);
        return;
      }
      Enqueue(filtered);
    }

    /** Only the first activation has an effect. */
    method Activate(upTo: nat)
      modifies this
      ensures View() == if old(active) then old(View()) else Settled(Activated(old(View()), upTo))
    {
      if active {
        return;
      }
      active, acknowledged := true, upTo;
      if pending.revision > upTo {
        Enqueue(pending);
      }
      pending := NOTHING;
    }

    method Receive() returns (notice: Option<Invalidation>)
      modifies this`queue, this`drained
      ensures notice == old(queue)
      ensures View() == if old(queue).Some? then Drain(old(View())) else old(View())
    {
      notice := queue;
      if queue.Some? {
        drained := drained + [queue.value];
        queue := None;
      }
    }
  }

  /** The hub's object: publishing reaches every subscriber, in whatever order. */
  class Registry {
    var subscribers: set<Subscriber>

    constructor ()
      ensures subscribers == {}
    {
      subscribers := {};
    }

    method Register(wanted: seq<Topic>) returns (subscriber: Subscriber)
      modifies this
      ensures fresh(subscriber) && subscribers == old(subscribers) + {subscriber}
      ensures subscriber.View() == Registered(set t | t in wanted)
    {
      subscriber := new Subscriber(wanted);
      subscribers := subscribers + {subscriber};
    }

    method Close(subscriber: Subscriber)
      modifies this
      ensures subscribers == old(subscribers) - {subscriber}
    {
      subscribers := subscribers - {subscriber};
    }

    method Publish(change: Invalidation)
      modifies subscribers
      ensures forall s | s in subscribers ::
                s.View() == if change.revision == 0 then old(s.View()) else Settled(Visit(old(s.View()), change))
    {
      if change.revision == 0 {
        return;
      }
      var waiting := subscribers;
      while waiting != {}
        invariant waiting <= subscribers
        invariant forall s | s in waiting :: s.View() == old(s.View())
        invariant forall s | s in subscribers - waiting :: s.View() == Settled(Visit(old(s.View()), change))
        decreases |waiting|
      {
        var subscriber :| subscriber in waiting;
        subscriber.Accept(change);
        waiting := waiting - {subscriber};
      }
    }
  }
}
