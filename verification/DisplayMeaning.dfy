/**
 What the display orders look like to a reader: when they are sorted by time, when times never
 fall, and what breaks a tie.
 */
module DisplayMeaning {
  import opened CausalGraph
  import opened EventRecords
  import opened Sorting
  import opened Kahn
  import opened DisplayOrder
  import opened Options

  // ------------------------------------------------------------------------ messages

  /** Created earlier, or together with a lexically smaller identifier. */
  predicate Earlier(messages: Messages, a: Id, b: Id)
    requires a in messages && b in messages
  {
    || messages[a].createdAt < messages[b].createdAt
    || (messages[a].createdAt == messages[b].createdAt && StringLess(a, b))
  }

  /** On acyclic parents, the message order is sorted by creation time and identifier exactly when
      every parent among the messages is earlier than its child in that sense. */
  lemma MessagesSortedExactly(messages: Messages, s: seq<Id>)
    requires Acyclic(MessageGraph(messages))
    requires LeastReadyOrder(MessageGraph(messages), messages.Keys, (a, b) => TimeThenId(MessageTimes(messages), a, b), s)
    ensures forall id :: id in s <==> id in messages
    ensures (forall i, j | 0 <= i < j < |s| :: Earlier(messages, s[i], s[j])) <==>
            (forall c, p | c in messages && p in messages && p in messages[c].parents :: Earlier(messages, p, c))
  {
    AcyclicOrderIsComplete(MessageGraph(messages), messages.Keys, (a, b) => TimeThenId(MessageTimes(messages), a, b), s);
    assert forall id :: id in s <==> id in Elements(s);
    if forall c, p | c in messages && p in messages && p in messages[c].parents :: Earlier(messages, p, c) {
      forall k: nat | k + 1 < |s|
        ensures StepsForward(messages, s, k)
      {
        NextIsEarlier(messages, s, k);
      }
      forall i, j | 0 <= i < j < |s|
        ensures Earlier(messages, s[i], s[j])
      {
        StepsAddUp(messages, s, i, j);
      }
    }
    if forall i, j | 0 <= i < j < |s| :: Earlier(messages, s[i], s[j]) {
      forall c, p | c in messages && p in messages && p in messages[c].parents
        ensures Earlier(messages, p, c)
      {
        ParentShownFirst(messages, s, c, p);
      }
    }
  }

  lemma EarlierTransitive(messages: Messages, a: Id, b: Id, c: Id)
    requires a in messages && b in messages && c in messages
    requires Earlier(messages, a, b) && Earlier(messages, b, c)
    ensures Earlier(messages, a, c)
  {
    if StringLess(a, b) && StringLess(b, c) {
      StringLessTransitive(a, b, c);
    }
  }

  lemma NextIsEarlier(messages: Messages, s: seq<Id>, i: nat)
    requires LeastReadyOrder(MessageGraph(messages), messages.Keys, (a, b) => TimeThenId(MessageTimes(messages), a, b), s)
    requires forall c, p | c in messages && p in messages && p in messages[c].parents :: Earlier(messages, p, c)
    requires i + 1 < |s|
    ensures s[i] in messages && s[i + 1] in messages && Earlier(messages, s[i], s[i + 1])
  {
    var less := (a, b) => TimeThenId(MessageTimes(messages), a, b);
    NewlyReady(MessageGraph(messages), messages.Keys, less, s, i);
    EmittedIsSelected(MessageGraph(messages), messages.Keys, less, s, i);
    EmittedIsSelected(MessageGraph(messages), messages.Keys, less, s, i + 1);
    if less(s[i], s[i + 1]) {
      assert TimeThenId(MessageTimes(messages), s[i], s[i + 1]);
    }
  }

  /** Message `k` of the order is earlier than the next. */
  predicate StepsForward(messages: Messages, s: seq<Id>, k: nat)
    requires k + 1 < |s|
  {
    s[k] in messages && s[k + 1] in messages && Earlier(messages, s[k], s[k + 1])
  }

  lemma {:induction false} StepsAddUp(messages: Messages, s: seq<Id>, i: nat, j: nat)
    requires i < j < |s| && forall k: nat | k + 1 < |s| :: StepsForward(messages, s, k)
    ensures s[i] in messages && s[j] in messages && Earlier(messages, s[i], s[j])
    decreases j - i
  {
    assert StepsForward(messages, s, j - 1);
    if i < j - 1 {
      StepsAddUp(messages, s, i, j - 1);
      EarlierTransitive(messages, s[i], s[j - 1], s[j]);
    }
  }

  lemma ParentShownFirst(messages: Messages, s: seq<Id>, c: Id, p: Id)
    requires LeastReadyOrder(MessageGraph(messages), messages.Keys, (a, b) => TimeThenId(MessageTimes(messages), a, b), s)
    requires c in s && c in messages && p in messages && p in messages[c].parents
    ensures exists i, j :: 0 <= i < j < |s| && s[i] == p && s[j] == c
  {
    ParentsComeFirst(MessageGraph(messages), messages.Keys, (a, b) => TimeThenId(MessageTimes(messages), a, b), s);
    var j :| 0 <= j < |s| && s[j] == c;
    assert p in Parents(MessageGraph(messages), s[j]);
    var i :| 0 <= i < j && s[..j][i] == p;
    assert s[i] == p;
  }

  /** If no message is created before its parents, creation times never fall along the order. */
  lemma MessageTimesNeverFall(messages: Messages, s: seq<Id>, i: nat, j: nat)
    requires LeastReadyOrder(MessageGraph(messages), messages.Keys, (a, b) => TimeThenId(MessageTimes(messages), a, b), s)
    requires forall c, p | c in messages && p in messages && p in messages[c].parents ::
               messages[p].createdAt <= messages[c].createdAt
    requires i < j < |s|
    ensures s[i] in messages && s[j] in messages && messages[s[i]].createdAt <= messages[s[j]].createdAt
  {
    var g, less := MessageGraph(messages), (a, b) => TimeThenId(MessageTimes(messages), a, b);
    assert RanksFit(g, messages.Keys, less, MessageTimes(messages));
    RanksNeverFall(g, messages.Keys, less, s, MessageTimes(messages), i, j);
  }

  const TOGETHER: Messages :=
    map["m" := MessageView([], 1), "p" := MessageView([], 1), "a" := MessageView(["p"], 1)]

  /** Messages created together need not come in the order of their identifiers: a child waits
      for its parent. */
  lemma ChildWaitsForParent(s: seq<Id>)
    requires LeastReadyOrder(MessageGraph(TOGETHER), TOGETHER.Keys, (a, b) => TimeThenId(MessageTimes(TOGETHER), a, b), s)
    ensures s == ["m", "p", "a"]
  {
    var g, less := MessageGraph(TOGETHER), (a, b) => TimeThenId(MessageTimes(TOGETHER), a, b);
    var t := ["m", "p", "a"];
    TimeThenIdTotal(MessageTimes(TOGETHER));
    assert MessageTimes(TOGETHER).Keys == TOGETHER.Keys == {"m", "p", "a"};
    assert t[..0] == [] && t[..1] == ["m"] && t[..2] == ["m", "p"];
    assert Elements(t[..0]) == {} && Elements(t[..1]) == {"m"} && Elements(t[..2]) == {"m", "p"};
    assert Elements(t) == {"m", "p", "a"};
    assert "p" in Parents(g, "a");
    assert LeastReadyOrder(g, TOGETHER.Keys, less, t);
    LeastReadyOrderUnique(g, TOGETHER.Keys, less, s, t);
  }

  // ------------------------------------------------------------- conversation events

  /** If no event of the conversation is created before its parents there, creation seconds never
      fall along the conversation. */
  lemma ConversationTimesNeverFall(records: Records, s: seq<Id>, i: nat, j: nat)
    requires LeastReadyOrder(GraphOf(records), Conversation(records),
                             (a, b) => ConversationLess(TieKeys(records), a, b), s)
    requires forall c, p | c in Conversation(records) && p in Conversation(records) &&
                           p in records[c].event.content.parents ::
               records[p].event.createdAt <= records[c].event.createdAt
    requires i < j < |s|
    ensures s[i] in records && s[j] in records && records[s[i]].event.createdAt <= records[s[j]].event.createdAt
  {
    var g, less := GraphOf(records), (a, b) => ConversationLess(TieKeys(records), a, b);
    var rank := map id | id in records :: records[id].event.createdAt;
    assert RanksFit(g, Conversation(records), less, rank);
    RanksNeverFall(g, Conversation(records), less, s, rank, i, j);
  }

  /** What a conversation shows: projected and unresolved questions, answers and messages, and
      projected activities. */
  lemma ConversationMeans(records: Records, id: Id)
    ensures id in Conversation(records) <==>
            && id in records
            && (|| (records[id].event.content.kind in {Question, Answer, Message} &&
                    records[id].status in {Projected, Unresolved})
                || (records[id].event.content.kind == HarnessActivity && records[id].status == Projected))
  {
  }

  /** A sent activity with a readable payload. */
  predicate IsActivity(e: Event) {
    e.content.kind == HarnessActivity && e.content.sender.Some? && e.content.payload.ActivityPayload?
  }

  /** An activity occurs at its own time, everything else at its creation second. */
  lemma OccurrenceMeans(e: Event)
    ensures ConversationTie(e).0 == if IsActivity(e) then e.content.payload.occurredAt else 1000 * e.createdAt
  {
  }

  /** Events that are not activities tie by identifier. */
  lemma MessagesTieById(a: Event, b: Event)
    requires a.content.kind != HarnessActivity && b.content.kind != HarnessActivity
    ensures StringLess(ConversationTie(a).1, ConversationTie(b).1) <==> StringLess(a.id, b.id)
  {
    CommonPrefix("message" + [0 as char], a.id, b.id);
  }

  /** At one moment, activities come before messages. */
  lemma ActivitiesTieFirst(a: Event, b: Event)
    requires IsActivity(a) && b.content.kind != HarnessActivity
    ensures StringLess(ConversationTie(a).1, ConversationTie(b).1)
  {
    assert ConversationTie(a).1[0] == 'a' && ConversationTie(b).1[0] == 'm';
  }

  /** Two activities of one runtime. */
  predicate SameRuntime(a: Event, b: Event) {
    && IsActivity(a) && IsActivity(b) && a.content.sender == b.content.sender
    && a.content.payload.provider == b.content.payload.provider
    && a.content.payload.runtime == b.content.payload.runtime
  }

  function RuntimePrefix(e: Event): string
    requires IsActivity(e)
  {
    var sender, payload, sep := e.content.sender.value, e.content.payload, [0 as char];
    "activity" + sep + sender.installation + sep + sender.mailbox + sep + payload.provider + sep + payload.runtime + sep
  }

  lemma ActivityTieSplits(e: Event)
    requires IsActivity(e)
    ensures ConversationTie(e).1 == RuntimePrefix(e) + (Padded(e.content.payload.sequence, 20) + ([0 as char] + e.id))
  {
    assert ConversationTie(e).1 == RuntimePrefix(e) + Padded(e.content.payload.sequence, 20) + [0 as char] + e.id;
  }

  /** At one moment, activities of one runtime come in the order of their sequence numbers, and
      with one number by identifier. */
  lemma ActivitiesTieBySequence(a: Event, b: Event)
    requires SameRuntime(a, b)
    ensures a.content.payload.sequence < b.content.payload.sequence ==>
              StringLess(ConversationTie(a).1, ConversationTie(b).1)
    ensures a.content.payload.sequence == b.content.payload.sequence ==>
              (StringLess(ConversationTie(a).1, ConversationTie(b).1) <==> StringLess(a.id, b.id))
  {
    var m, n, sep := a.content.payload.sequence, b.content.payload.sequence, [0 as char];
    ActivityTieSplits(a);
    ActivityTieSplits(b);
    CommonPrefix(RuntimePrefix(a), Padded(m, 20) + (sep + a.id), Padded(n, 20) + (sep + b.id));
    if m < n {
      TwentyDigits();
      PaddedOrders(m, n, 20);
      EarlierDecides(Padded(m, 20), Padded(n, 20), sep + a.id, sep + b.id);
    } else if m == n {
      CommonPrefix(Padded(m, 20), sep + a.id, sep + b.id);
      CommonPrefix(sep, a.id, b.id);
    }
  }

  lemma TwentyDigits()
    ensures 0x1_0000_0000_0000_0000 < Power10(20)
  {
    assert Power10(5) == 100_000;
    assert Power10(10) == 10_000_000_000;
    assert Power10(15) == 1_000_000_000_000_000;
    assert Power10(20) == 100_000_000_000_000_000_000;
  }
}
