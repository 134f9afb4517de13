/**
 The three display orders: projected messages, mixed conversation events, and the entries
 of one stored conversation.
 */
module DisplayOrder {
  import opened CausalGraph
  import opened EventRecords
  import opened Sorting
  import opened Kahn
  import opened Options

  // ------------------------------------------------------------------------ messages

  datatype MessageView = MessageView(parents: seq<Id>, createdAt: int)

  type Messages = map<Id, MessageView>

  function MessageGraph(messages: Messages): Graph<Id> {
    map id | id in messages :: messages[id].parents
  }

  /** By creation time, then by identifier. */
  predicate TimeThenId(time: map<Id, int>, a: Id, b: Id) {
    a in time && b in time && (time[a] < time[b] || (time[a] == time[b] && StringLess(a, b)))
  }

  function MessageTimes(messages: Messages): map<Id, int> {
    map id | id in messages :: messages[id].createdAt
  }

  lemma TimeThenIdTotal(time: map<Id, int>)
    ensures StrictTotalOn((a, b) => TimeThenId(time, a, b), time.Keys)
  {
    StringOrder(time.Keys);
  }

  /** The message order, whichever way the message map is iterated: of the messages whose parents
      among the messages have all been emitted, the one created first comes next, and of those
      created together the one with the lexically smaller identifier. */
  method OrderMessages(messages: Messages, build: seq<Id>, collect: seq<Id>) returns (ordered: seq<Id>)
    requires IsOrderOf(build, messages) && IsOrderOf(collect, messages)
    ensures LeastReadyOrder(MessageGraph(messages), messages.Keys,
                            (a, b) => TimeThenId(MessageTimes(messages), a, b), ordered)
    ensures forall i, c | 0 <= i < |ordered| && c != ordered[i] &&
                          Ready(MessageGraph(messages), messages.Keys, Elements(ordered[..i]), c) ::
              && ordered[i] in messages && c in messages
              && (|| messages[ordered[i]].createdAt < messages[c].createdAt
                  || (messages[ordered[i]].createdAt == messages[c].createdAt && StringLess(ordered[i], c)))
  {
    var time := MessageTimes(messages);
    TimeThenIdTotal(time);
    assert time.Keys == messages.Keys;
    ordered := OrderByParents(MessageGraph(messages), messages.Keys, build, collect, (a, b) => TimeThenId(time, a, b));
  }

  // ------------------------------------------------------------- conversation events

  predicate InConversation(r: Record) {
    match r.event.content.kind
    case Question | Answer | Message => r.status == Projected || r.status == Unresolved
    case HarnessActivity => r.status == Projected
    case _ => false
  }

  function Conversation(records: Records): set<Id> {
    set id | id in records && InConversation(records[id])
  }

  /** The tie-break of a conversation event: a time in milliseconds and a string. */
  function ConversationTie(e: Event): (int, string) {
    var millis := e.createdAt * 1000;
    if e.content.kind != HarnessActivity || e.content.sender.None? then
      (millis, "message" + [0 as char] + e.id)
    else if !e.content.payload.ActivityPayload? then
      (millis, "activity-invalid" + [0 as char] + e.id)
    else
      var sender, payload, sep := e.content.sender.value, e.content.payload, [0 as char];
      (payload.occurredAt,
       "activity" + sep + sender.installation + sep + sender.mailbox + sep + payload.provider + sep +
       payload.runtime + sep + Padded(payload.sequence, 20) + sep + e.id)
  }

  /** By creation second, then by the time of occurrence, then by the tie text. */
  predicate ShownFirst(a: Event, b: Event) {
    || a.createdAt < b.createdAt
    || (a.createdAt == b.createdAt && ConversationTie(a).0 < ConversationTie(b).0)
    || (a.createdAt == b.createdAt && ConversationTie(a).0 == ConversationTie(b).0 &&
        StringLess(ConversationTie(a).1, ConversationTie(b).1))
  }

  datatype TieKey = TieKey(createdAt: int, time: int, tie: string)

  predicate TieLess(a: TieKey, b: TieKey) {
    if a.createdAt != b.createdAt then a.createdAt < b.createdAt
    else if a.time != b.time then a.time < b.time
    else StringLess(a.tie, b.tie)
  }

  lemma TieLessTotal(a: TieKey, b: TieKey, c: TieKey)
    ensures !TieLess(a, a)
    ensures a != b ==> TieLess(a, b) || TieLess(b, a)
    ensures TieLess(a, b) && TieLess(b, c) ==> TieLess(a, c)
  {
    StringOrder({a.tie, b.tie, c.tie});
  }

  function TieKeys(records: Records): map<Id, TieKey> {
    map id | id in records ::
      var (time, tie) := ConversationTie(records[id].event);
      TieKey(records[id].event.createdAt, time, tie)
  }

  predicate ConversationLess(keys: map<Id, TieKey>, a: Id, b: Id) {
    a in keys && b in keys && TieLess(keys[a], keys[b])
  }

  /** Event identifiers are hexadecimal digests, all of one length. */
  ghost predicate DigestIds(records: Records) {
    forall id | id in records :: |id| == 64 && records[id].event.id == id
  }

  lemma TieEndsWithId(e: Event)
    ensures |ConversationTie(e).1| >= |e.id|
    ensures var tie := ConversationTie(e).1; tie[|tie| - |e.id|..] == e.id
  {
  }

  lemma TieKeysDiffer(records: Records, a: Id, b: Id)
    requires DigestIds(records) && a in records && b in records && a != b
    ensures TieKeys(records)[a] != TieKeys(records)[b]
  {
    TieEndsWithId(records[a].event);
    TieEndsWithId(records[b].event);
  }

  lemma ConversationLessTotal(keys: map<Id, TieKey>)
    requires forall a, b | a in keys && b in keys && a != b :: keys[a] != keys[b]
    ensures StrictTotalOn((a, b) => ConversationLess(keys, a, b), keys.Keys)
  {
    forall a, b, c
      ensures !TieLess(a, a)
      ensures a != b ==> TieLess(a, b) || TieLess(b, a)
      ensures TieLess(a, b) && TieLess(b, c) ==> TieLess(a, c)
    {
      TieLessTotal(a, b, c);
    }
  }

  /** The conversation order over the selected records, whichever way the maps are iterated. */
  method OrderConversationEvents(records: Records, select: seq<Id>, build: seq<Id>, collect: seq<Id>)
      returns (ordered: seq<Id>)
    requires DigestIds(records) && IsOrderOf(select, records)
    requires Distinct(collect)
    requires forall id :: id in build <==> id in records && InConversation(records[id])
    requires forall id :: id in collect <==> id in records && InConversation(records[id])
    ensures LeastReadyOrder(GraphOf(records), Conversation(records),
                            (a, b) => ConversationLess(TieKeys(records), a, b), ordered)
    ensures forall i, c | 0 <= i < |ordered| && c != ordered[i] &&
                          Ready(GraphOf(records), Conversation(records), Elements(ordered[..i]), c) ::
              && ordered[i] in records && c in records
              && ShownFirst(records[ordered[i]].event, records[c].event)
  {
    var selected := SelectConversation(records, select);
    var keys := TieKeys(records);
    forall a, b | a in keys && b in keys && a != b
      ensures keys[a] != keys[b]
    {
      TieKeysDiffer(records, a, b);
    }
    ConversationLessTotal(keys);
    ordered := OrderByParents(GraphOf(records), selected, build, collect, (a, b) => ConversationLess(keys, a, b));
    FirstShownIsReady(records, ordered);
  }

  lemma FirstShownIsReady(records: Records, ordered: seq<Id>)
    requires LeastReadyOrder(GraphOf(records), Conversation(records),
                             (a, b) => ConversationLess(TieKeys(records), a, b), ordered)
    ensures forall i, c | 0 <= i < |ordered| && c != ordered[i] &&
                          Ready(GraphOf(records), Conversation(records), Elements(ordered[..i]), c) ::
              && ordered[i] in records && c in records
              && ShownFirst(records[ordered[i]].event, records[c].event)
  {
    forall i, c | 0 <= i < |ordered| && c != ordered[i] &&
                  Ready(GraphOf(records), Conversation(records), Elements(ordered[..i]), c)
      ensures ordered[i] in records && c in records && ShownFirst(records[ordered[i]].event, records[c].event)
    {
      assert ConversationLess(TieKeys(records), ordered[i], c);
    }
  }

  /** The selection loop, over the records in any order. */
  method SelectConversation(records: Records, select: seq<Id>) returns (selected: set<Id>)
    requires IsOrderOf(select, records)
    ensures selected == Conversation(records)
  {
    selected := {};
    for i := 0 to |select|
      invariant forall id :: id in selected <==> id in select[..i] && InConversation(records[id])
    {
      if InConversation(records[select[i]]) {
        selected := selected + {select[i]};
      }
    }
    assert select[..|select|] == select;
  }

  // ------------------------------------------------------------ conversation entries

  datatype Candidate = Candidate(recordId: string, eventId: Id, createdAt: int)

  function EventIds(candidates: seq<Candidate>): (ids: seq<Id>)
    ensures |ids| == |candidates| && forall i | 0 <= i < |ids| :: ids[i] == candidates[i].eventId
  {
    seq(|candidates|, i requires 0 <= i < |candidates| => candidates[i].eventId)
  }

  /** The candidates by event identifier; a later duplicate replaces an earlier one. */
  ghost function ById(candidates: seq<Candidate>): map<Id, Candidate> {
    if candidates == [] then map[] else
      var last := candidates[|candidates| - 1];
      ById(candidates[..|candidates| - 1])[last.eventId := last]
  }

  lemma {:induction false} ByIdFinds(candidates: seq<Candidate>)
    ensures ById(candidates).Keys == Elements(EventIds(candidates))
    ensures forall id | id in ById(candidates) :: ById(candidates)[id] in candidates && ById(candidates)[id].eventId == id
  {
    if candidates != [] {
      var n := |candidates| - 1;
      ByIdFinds(candidates[..n]);
      assert candidates == candidates[..n] + [candidates[n]];
      assert EventIds(candidates) == EventIds(candidates[..n]) + [candidates[n].eventId];
    }
  }

  ghost function EntryTimes(byId: map<Id, Candidate>): map<Id, int> {
    map id | id in byId :: byId[id].createdAt
  }

  const CHUNK: nat := 500

  /** The event identifiers asked for in the `k`th query. */
  function Chunk(ids: seq<Id>, k: nat): seq<Id>
    requires k * CHUNK <= |ids|
  {
    ids[k * CHUNK..if (k + 1) * CHUNK <= |ids| then (k + 1) * CHUNK else |ids|]
  }

  /** `rows` is what the database may answer when asked for the parent edges of `ids`. */
  ghost predicate Answers(g: Graph<Id>, ids: seq<Id>, rows: seq<(Id, Id)>) {
    forall c, p :: (c, p) in rows <==> c in ids && p in Parents(g, c)
  }

  /** One answer for each block of at most 500 identifiers. */
  ghost predicate AnswersAll(g: Graph<Id>, ids: seq<Id>, answers: seq<seq<(Id, Id)>>) {
    && |ids| <= |answers| * CHUNK
    && forall k | 0 <= k < |answers| :: k * CHUNK <= |ids| && Answers(g, Chunk(ids, k), answers[k])
  }

  /** Together the answers give every parent edge of every identifier. */
  lemma AnswersCover(g: Graph<Id>, ids: seq<Id>, answers: seq<seq<(Id, Id)>>, c: Id, p: Id)
    requires AnswersAll(g, ids, answers)
    ensures c in ids && p in Parents(g, c) <==> exists k :: 0 <= k < |answers| && (c, p) in answers[k]
  {
    if c in ids && p in Parents(g, c) {
      var i :| 0 <= i < |ids| && ids[i] == c;
      var k := i / CHUNK;
      assert Chunk(ids, k)[i - k * CHUNK] == c;
      assert (c, p) in answers[k];
    }
    if k :| 0 <= k < |answers| && (c, p) in answers[k] {
      assert c in Chunk(ids, k);
    }
  }

  /** Count the rows whose parent is itself a candidate. A duplicated candidate may bring
      the same row in twice. */
  method IndexRows(nodes: set<Id>, rows: seq<(Id, Id)>, remaining: map<Id, int>, children: map<Id, seq<Id>>,
                   ghost edges: seq<(Id, Id)>)
      returns (remaining': map<Id, int>, children': map<Id, seq<Id>>, ghost edges': seq<(Id, Id)>)
    requires BooksKept(nodes, edges, remaining, children)
    requires forall c, p | (c, p) in rows :: c in nodes
    ensures BooksKept(nodes, edges', remaining', children')
    ensures forall c, p :: (c, p) in edges' <==> (c, p) in edges || ((c, p) in rows && p in nodes)
  {
    remaining', children', edges' := remaining, children, edges;
    for i := 0 to |rows|
      invariant BooksKept(nodes, edges', remaining', children')
      invariant forall c, p :: (c, p) in edges' <==> (c, p) in edges || ((c, p) in rows[..i] && p in nodes)
    {
      var (child, parent) := rows[i];
      assert rows[i] in rows;
      if parent in nodes {
        BooksAddEdge(nodes, edges', remaining', children', child, parent);
        children' := children'[parent := ChildrenOf(children', parent) + [child]];
        remaining' := remaining'[child := remaining'[child] + 1];
        edges' := edges' + [(child, parent)];
      }
    }
    assert rows[..|rows|] == rows;
  }

  method IndexAnswers(nodes: set<Id>, answers: seq<seq<(Id, Id)>>)
      returns (remaining: map<Id, int>, children: map<Id, seq<Id>>, ghost edges: seq<(Id, Id)>)
    requires forall k, c, p | 0 <= k < |answers| && (c, p) in answers[k] :: c in nodes
    ensures BooksKept(nodes, edges, remaining, children)
    ensures forall c, p :: (c, p) in edges <==> p in nodes && exists k :: 0 <= k < |answers| && (c, p) in answers[k]
  {
    remaining, children, edges := map c | c in nodes :: 0, map[], [];
    EmptyBooks(nodes);
    for i := 0 to |answers|
      invariant BooksKept(nodes, edges, remaining, children)
      invariant forall c, p :: (c, p) in edges <==> p in nodes && exists k :: 0 <= k < i && (c, p) in answers[k]
    {
      remaining, children, edges := IndexRows(nodes, answers[i], remaining, children, edges);
    }
  }

  method IndexById(candidates: seq<Candidate>) returns (byId: map<Id, Candidate>)
    ensures byId == ById(candidates)
  {
    byId := map[];
    for i := 0 to |candidates|
      invariant byId == ById(candidates[..i])
    {
      assert candidates[..i + 1][..i] == candidates[..i];
      byId := byId[candidates[i].eventId := candidates[i]];
    }
    assert candidates[..|candidates|] == candidates;
  }

  /** Order one conversation's entries. It fails exactly when two candidates share an event
      identifier or the candidates contain a causal cycle; otherwise the result holds every
      candidate once and is the one least-ready order. */
  method OrderConversationCandidates(candidates: seq<Candidate>, answers: seq<seq<(Id, Id)>>, collect: seq<Id>,
                                     ghost g: Graph<Id>)
      returns (r: Option<seq<Candidate>>)
    requires AnswersAll(g, EventIds(candidates), answers)
    requires Distinct(collect) && forall id :: id in collect <==> id in EventIds(candidates)
    ensures r.Some? <==> Distinct(EventIds(candidates)) && !HasCycle(g, Elements(EventIds(candidates)))
    ensures r.Some? ==>
              && |r.value| == |candidates|
              && (forall c :: c in r.value <==> c in candidates)
              && LeastReadyOrder(g, Elements(EventIds(candidates)),
                                 (a, b) => TimeThenId(EntryTimes(ById(candidates)), a, b), EventIds(r.value))
    ensures r.Some? ==>
              forall i, c | 0 <= i < |r.value| && c in candidates && c != r.value[i] &&
                            Ready(g, Elements(EventIds(candidates)), Elements(EventIds(r.value)[..i]), c.eventId) ::
                || r.value[i].createdAt < c.createdAt
                || (r.value[i].createdAt == c.createdAt && StringLess(r.value[i].eventId, c.eventId))
  {
    var byId := IndexById(candidates);
    ByIdFinds(candidates);
    var ordered := OrderEntryIds(byId, answers, collect, EventIds(candidates), g);
    AllEntriesOrdered(candidates, g, ordered);
    if |ordered| != |candidates| {
      return None;
    }
    var entries := EntriesOf(byId, ordered);
    EntriesArePermutation(candidates, ordered, entries);
    EarliestEntryFirst(candidates, g, entries);
    return Some(entries);
  }

  /** With distinct identifiers, a candidate is found under its own. */
  lemma {:induction false} ByIdFindsItself(candidates: seq<Candidate>, i: nat)
    requires Distinct(EventIds(candidates)) && i < |candidates|
    ensures candidates[i].eventId in ById(candidates) && ById(candidates)[candidates[i].eventId] == candidates[i]
  {
    var n := |candidates| - 1;
    assert forall k | 0 <= k < |candidates| :: EventIds(candidates)[k] == candidates[k].eventId;
    if i < n {
      assert forall k | 0 <= k < n :: EventIds(candidates[..n])[k] == EventIds(candidates)[k];
      ByIdFindsItself(candidates[..n], i);
      assert EventIds(candidates)[i] != EventIds(candidates)[n];
    }
  }

  /** Of the candidates that are ready, the one created first comes next. */
  lemma EarliestEntryFirst(candidates: seq<Candidate>, g: Graph<Id>, entries: seq<Candidate>)
    requires Distinct(EventIds(candidates)) && forall c :: c in entries <==> c in candidates
    requires LeastReadyOrder(g, Elements(EventIds(candidates)),
                             (a, b) => TimeThenId(EntryTimes(ById(candidates)), a, b), EventIds(entries))
    ensures forall i, c | 0 <= i < |entries| && c in candidates && c != entries[i] &&
                          Ready(g, Elements(EventIds(candidates)), Elements(EventIds(entries)[..i]), c.eventId) ::
              || entries[i].createdAt < c.createdAt
              || (entries[i].createdAt == c.createdAt && StringLess(entries[i].eventId, c.eventId))
  {
    forall i, c | 0 <= i < |entries| && c in candidates && c != entries[i] &&
                  Ready(g, Elements(EventIds(candidates)), Elements(EventIds(entries)[..i]), c.eventId)
      ensures || entries[i].createdAt < c.createdAt
              || (entries[i].createdAt == c.createdAt && StringLess(entries[i].eventId, c.eventId))
    {
      assert entries[i] in candidates;
      var k :| 0 <= k < |candidates| && candidates[k] == c;
      var l :| 0 <= l < |candidates| && candidates[l] == entries[i];
      ByIdFindsItself(candidates, k);
      ByIdFindsItself(candidates, l);
      assert EventIds(candidates)[k] != EventIds(candidates)[l];
      assert TimeThenId(EntryTimes(ById(candidates)), EventIds(entries)[i], c.eventId);
    }
  }

  method EntriesOf(byId: map<Id, Candidate>, ordered: seq<Id>) returns (entries: seq<Candidate>)
    requires forall i | 0 <= i < |ordered| :: ordered[i] in byId && byId[ordered[i]].eventId == ordered[i]
    ensures EventIds(entries) == ordered
    ensures |entries| == |ordered| && forall i | 0 <= i < |ordered| :: entries[i] == byId[ordered[i]]
  {
    entries := seq(|ordered|, i requires 0 <= i < |ordered| && ordered[i] in byId => byId[ordered[i]]);
  }

  method OrderEntryIds(byId: map<Id, Candidate>, answers: seq<seq<(Id, Id)>>, collect: seq<Id>,
                       ghost ids: seq<Id>, ghost g: Graph<Id>)
      returns (ordered: seq<Id>)
    requires AnswersAll(g, ids, answers) && byId.Keys == Elements(ids)
    requires Distinct(collect) && forall id :: id in collect <==> id in ids
    ensures LeastReadyOrder(g, byId.Keys, (a, b) => TimeThenId(EntryTimes(byId), a, b), ordered)
  {
    forall c, p
      ensures c in byId.Keys && p in Parents(g, c) <==> exists k :: 0 <= k < |answers| && (c, p) in answers[k]
    {
      AnswersCover(g, ids, answers, c, p);
    }
    var remaining, children;
    ghost var edges;
    remaining, children, edges := IndexAnswers(byId.Keys, answers);
    var ready := CollectReady(remaining, collect);
    var time := map id | id in byId :: byId[id].createdAt;
    TimeThenIdTotal(time);
    assert time.Keys == byId.Keys && time == EntryTimes(byId);
    ordered := EmitReady(remaining, children, ready, (a, b) => TimeThenId(time, a, b), g, byId.Keys, edges);
  }

  /** The order is as long as the input exactly when nothing is duplicated or cyclic. */
  lemma AllEntriesOrdered(candidates: seq<Candidate>, g: Graph<Id>, ordered: seq<Id>)
    requires LeastReadyOrder(g, ById(candidates).Keys, (a, b) => TimeThenId(EntryTimes(ById(candidates)), a, b), ordered)
    ensures |ordered| == |candidates| <==>
            Distinct(EventIds(candidates)) && !HasCycle(g, Elements(EventIds(candidates)))
    ensures |ordered| == |candidates| ==> Elements(ordered) == Elements(EventIds(candidates))
    ensures ById(candidates).Keys == Elements(EventIds(candidates))
    ensures forall id | id in ordered :: id in ById(candidates)
  {
    ByIdFinds(candidates);
    var nodes := ById(candidates).Keys;
    var less := (a, b) => TimeThenId(EntryTimes(ById(candidates)), a, b);
    ParentsComeFirst(g, nodes, less, ordered);
    EmitsAllUnlessCycle(g, nodes, less, ordered);
    FewerIdsThanCandidates(candidates);
    WithinCount(Elements(ordered), nodes);
    assert forall id | id in ordered :: id in Elements(ordered);
  }

  lemma WithinCount<T>(a: set<T>, b: set<T>)
    requires a <= b
    ensures |a| <= |b|
  {
    assert b == a + (b - a) && |b| == |a| + |b - a|;
  }

  /** The identifiers are as many as the candidates exactly when they are distinct. */
  lemma FewerIdsThanCandidates(candidates: seq<Candidate>)
    ensures |Elements(EventIds(candidates))| <= |candidates|
    ensures |Elements(EventIds(candidates))| == |candidates| <==> Distinct(EventIds(candidates))
  {
    DistinctIffCounted(EventIds(candidates));
  }

  lemma {:induction false} DistinctIffCounted(s: seq<Id>)
    ensures |Elements(s)| <= |s|
    ensures |Elements(s)| == |s| <==> Distinct(s)
  {
    if s != [] {
      var n := |s| - 1;
      DistinctIffCounted(s[..n]);
      assert s == s[..n] + [s[n]];
      if s[n] in s[..n] {
        assert Elements(s) == Elements(s[..n]);
      } else {
        assert Elements(s) == Elements(s[..n]) + {s[n]};
      }
    }
  }

  lemma EntriesArePermutation(candidates: seq<Candidate>, ordered: seq<Id>, entries: seq<Candidate>)
    requires Distinct(EventIds(candidates)) && Elements(ordered) == Elements(EventIds(candidates))
    requires |entries| == |ordered| && forall i | 0 <= i < |ordered| ::
               ordered[i] in ById(candidates) && entries[i] == ById(candidates)[ordered[i]]
    ensures forall c :: c in entries <==> c in candidates
  {
    ByIdFinds(candidates);
    forall c | c in candidates
      ensures c in entries
    {
      var j :| 0 <= j < |candidates| && candidates[j] == c;
      assert EventIds(candidates)[j] == c.eventId && c.eventId in Elements(ordered);
      var i :| 0 <= i < |ordered| && ordered[i] == c.eventId;
      var k :| 0 <= k < |candidates| && candidates[k] == entries[i];
      assert EventIds(candidates)[k] == EventIds(candidates)[j];
    }
  }
}
