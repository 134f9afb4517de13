/**
 The bounded buffer between a harness session and persistence. Each method is one critical
 section; a caller told to wait tries again later, with any other sections in between.
 */
module EventBuffer {
  import opened EventWork
  import opened Options
  import opened Slices

  datatype Buffered = Buffered(work: Work, key: string)

  datatype Enqueued = Entered | Cancelled | Full
  datatype Dequeued = Taken(work: Work) | Ended | Empty

  /** Everything that happened: the works accepted, in order, and the numbers of those taken. */
  datatype History = History(accepted: seq<Work>, taken: seq<nat>)

  // -------------------------------------------------------------------------- reference

  /** A later accepted work replaces an earlier one with the same non-empty key. */
  predicate Supersedes(accepted: seq<Work>, j: nat, i: nat)
    requires i < |accepted| && j < |accepted|
  {
    i < j && CoalesceKey(accepted[i]) != "" && CoalesceKey(accepted[i]) == CoalesceKey(accepted[j])
  }

  predicate Superseded(accepted: seq<Work>, i: nat)
    requires i < |accepted|
  {
    exists j: nat | j < |accepted| :: Supersedes(accepted, j, i)
  }

  /** Work number i still has to be handed out. */
  predicate Live(h: History, i: nat) {
    i < |h.accepted| && i !in h.taken && !Superseded(h.accepted, i)
  }

  predicate Increasing(stamps: seq<nat>) {
    forall p, q | 0 <= p < q < |stamps| :: stamps[p] < stamps[q]
  }

  /** The numbers of the live works, in order of acceptance. */
  ghost predicate Lists(h: History, stamps: seq<nat>) {
    && Increasing(stamps)
    && (forall p | 0 <= p < |stamps| :: stamps[p] < |h.accepted|)
    && (forall i: nat :: i in stamps <==> Live(h, i))
  }

  predicate Holds(h: History, stamps: seq<nat>, items: seq<Buffered>)
    requires forall p | 0 <= p < |stamps| :: stamps[p] < |h.accepted|
  {
    |items| == |stamps| &&
    forall p | 0 <= p < |items| :: items[p] == Buffered(h.accepted[stamps[p]], CoalesceKey(h.accepted[stamps[p]]))
  }

  /** Works are taken in order of acceptance, and before everything still held. */
  predicate TakenInOrder(h: History, stamps: seq<nat>) {
    && Increasing(h.taken)
    && (forall p | 0 <= p < |h.taken| :: h.taken[p] < |h.accepted|)
    && (forall p, q | 0 <= p < |h.taken| && 0 <= q < |stamps| :: h.taken[p] < stamps[q])
  }

  /** The buffer holds exactly the accepted works that are neither taken nor superseded. */
  ghost predicate Mirrors(h: History, stamps: seq<nat>, items: seq<Buffered>) {
    Lists(h, stamps) && TakenInOrder(h, stamps) && Holds(h, stamps, items)
  }

  // ------------------------------------------------------------------------------ steps

  /** The same history has only one possible content. */
  lemma ContentsAreDetermined(h: History, stamps: seq<nat>, items: seq<Buffered>, stamps': seq<nat>, items': seq<Buffered>)
    requires Mirrors(h, stamps, items) && Mirrors(h, stamps', items')
    ensures items == items'
  {
    forall i: nat
      ensures i in stamps <==> i in stamps'
    {
      assert i in stamps <==> Live(h, i);
    }
    SameMembersSameList(stamps, stamps');
  }

  lemma {:induction false} SameMembersSameList(a: seq<nat>, b: seq<nat>)
    requires Increasing(a) && Increasing(b) && forall i: nat :: i in a <==> i in b
    ensures a == b
  {
    assert |b| > 0 ==> b[0] in b;
    if a != [] {
      var m, n := |a| - 1, |b| - 1;
      assert a[m] in b && b[n] in a;
      forall i: nat
        ensures i in a[..m] <==> i in b[..n]
      {
        assert i in a <==> i in b;
        assert a == a[..m] + [a[m]] && b == b[..n] + [b[n]];
      }
      SameMembersSameList(a[..m], b[..n]);
    }
  }

  /** A work with no key, or a key nobody holds, goes to the end. */
  lemma AppendKeeps(h: History, stamps: seq<nat>, items: seq<Buffered>, work: Work)
    requires Mirrors(h, stamps, items)
    requires CoalesceKey(work) != "" ==> forall p | 0 <= p < |items| :: items[p].key != CoalesceKey(work)
    ensures Mirrors(h.(accepted := h.accepted + [work]), stamps + [|h.accepted|],
                    items + [Buffered(work, CoalesceKey(work))])
  {
    var n := |h.accepted|;
    var after := h.(accepted := h.accepted + [work]);
    forall i: nat
      ensures i in stamps + [n] <==> Live(after, i)
    {
      AcceptedLive(h, work, i);
      if i in stamps {
        var p :| 0 <= p < |stamps| && stamps[p] == i;
        assert items[p].key == CoalesceKey(h.accepted[i]);
      }
    }
  }

  /** Accepting a work makes it live and ends the life of those with its key. */
  lemma AcceptedLive(h: History, work: Work, i: nat)
    requires forall p | 0 <= p < |h.taken| :: h.taken[p] < |h.accepted|
    ensures Live(h.(accepted := h.accepted + [work]), i) <==>
            i == |h.accepted| ||
            (Live(h, i) && !(CoalesceKey(work) != "" && CoalesceKey(work) == CoalesceKey(h.accepted[i])))
  {
    var after := h.accepted + [work];
    if i < |h.accepted| {
      assert after[i] == h.accepted[i];
      if Superseded(h.accepted, i) {
        var j: nat :| j < |h.accepted| && Supersedes(h.accepted, j, i);
        assert Supersedes(after, j, i);
      } else if CoalesceKey(work) != "" && CoalesceKey(work) == CoalesceKey(h.accepted[i]) {
        assert Supersedes(after, |h.accepted|, i);
      } else {
        forall j: nat | j < |after|
          ensures !Supersedes(after, j, i)
        {
          assert j < |h.accepted| ==> !Supersedes(h.accepted, j, i);
        }
      }
    }
  }

  /** A held key is replaced: the old value leaves its place and the new one goes to the end. */
  lemma ReplaceKeeps(h: History, stamps: seq<nat>, items: seq<Buffered>, work: Work, at: nat)
    requires Mirrors(h, stamps, items) && at < |items|
    requires CoalesceKey(work) != "" && items[at].key == CoalesceKey(work)
    ensures Mirrors(h.(accepted := h.accepted + [work]), stamps[..at] + stamps[at + 1..] + [|h.accepted|],
                    items[..at] + items[at + 1..] + [Buffered(work, CoalesceKey(work))])
  {
    var n := |h.accepted|;
    var after := h.(accepted := h.accepted + [work]);
    var rest := stamps[..at] + stamps[at + 1..];
    forall i: nat
      ensures i in rest + [n] <==> Live(after, i)
    {
      AcceptedLive(h, work, i);
      OneHolder(h, stamps, items, at, i);
    }
  }

  /** Only one held work has a given key. */
  lemma OneHolder(h: History, stamps: seq<nat>, items: seq<Buffered>, at: nat, i: nat)
    requires Mirrors(h, stamps, items) && at < |items| && items[at].key != ""
    ensures i in stamps[..at] + stamps[at + 1..] <==>
            Live(h, i) && CoalesceKey(h.accepted[i]) != items[at].key
  {
    var rest := stamps[..at] + stamps[at + 1..];
    assert stamps == stamps[..at] + [stamps[at]] + stamps[at + 1..];
    assert i in stamps <==> Live(h, i);
    assert stamps[at] in stamps;
    if i in rest {
      var p :| 0 <= p < |stamps| && p != at && stamps[p] == i;
      assert !Supersedes(h.accepted, stamps[at], i) && !Supersedes(h.accepted, i, stamps[at]);
    }
  }

  /** Handing out the first item takes the oldest live work. */
  lemma DequeueKeeps(h: History, stamps: seq<nat>, items: seq<Buffered>)
    requires Mirrors(h, stamps, items) && items != []
    ensures Mirrors(h.(taken := h.taken + [stamps[0]]), stamps[1..], items[1..])
    ensures items[0].work == h.accepted[stamps[0]] && Live(h, stamps[0])
    ensures forall i: nat | Live(h, i) :: stamps[0] <= i
  {
    var after := h.(taken := h.taken + [stamps[0]]);
    assert stamps[0] in stamps;
    assert stamps == [stamps[0]] + stamps[1..];
    forall i: nat
      ensures i in stamps[1..] <==> Live(after, i)
      ensures Live(h, i) ==> stamps[0] <= i
    {
      assert i in stamps <==> Live(h, i);
    }
  }

  // --------------------------------------------------------------------------- promises

  /** A work without a key is taken or still held: never lost. */
  lemma UnkeyedIsNeverLost(h: History, stamps: seq<nat>, items: seq<Buffered>, i: nat)
    requires Mirrors(h, stamps, items) && i < |h.accepted| && CoalesceKey(h.accepted[i]) == ""
    ensures i in h.taken || i in stamps
  {
    assert i in stamps <==> Live(h, i);
  }

  /** Outputs, and activities other than plans, diffs, progress and running operations, are each
      handed out or still held. */
  lemma FinalWorkIsNeverLost(h: History, stamps: seq<nat>, items: seq<Buffered>, i: nat)
    requires Mirrors(h, stamps, items) && i < |h.accepted|
    requires var w := h.accepted[i];
             || w.output.Some? || w.activity.None?
             || w.activity.value.kind !in {"plan", "diff", "progress", "operation-status"}
             || (w.activity.value.kind == "operation-status" && w.activity.value.status != "running")
    ensures i in h.taken || i in stamps
  {
    OnlyLatestValuesHaveKeys(h.accepted[i]);
    UnkeyedIsNeverLost(h, stamps, items, i);
  }

  /** For every accepted work, the work itself or a later value of the same key is taken or held. */
  lemma {:induction false} LatestValueIsNeverLost(h: History, stamps: seq<nat>, items: seq<Buffered>, i: nat)
    returns (j: nat)
    requires Mirrors(h, stamps, items) && i < |h.accepted|
    ensures i <= j < |h.accepted| && CoalesceKey(h.accepted[j]) == CoalesceKey(h.accepted[i])
    ensures j in h.taken || j in stamps
    decreases |h.accepted| - i
  {
    assert i in stamps <==> Live(h, i);
    if i in h.taken || i in stamps {
      j := i;
    } else {
      var next: nat :| next < |h.accepted| && Supersedes(h.accepted, next, i);
      j := LatestValueIsNeverLost(h, stamps, items, next);
    }
  }

  class EventBuffer {
    const capacity: nat
    var items: Slice<Buffered>
    var closed: bool
    ghost var history: History
    ghost var stamps: seq<nat>

    ghost predicate Valid()
      reads this, items.data
    {
      && capacity >= 1 && items.Fits() && items.len <= capacity
      && Mirrors(history, stamps, items.Items())
    }

    constructor (requested: int)
      ensures Valid() && fresh(items.data) && items.Items() == [] && !closed && history == History([], [])
      ensures capacity == if requested < 1 then 1 else requested
    {
      capacity := if requested < 1 then 1 else requested;
      var data := new Buffered[] [];
      items, closed, history, stamps := Slice(data, 0), false, History([], []), [];
    }

    /** The last item with the key, or none. */
    method Find(key: string) returns (at: Option<nat>)
      requires items.Fits()
      ensures at.Some? ==> at.value < items.len && items.data[at.value].key == key
      ensures at.None? ==> forall p | 0 <= p < items.len :: items.data[p].key != key
    {
      var index := items.len;
      while index > 0
        invariant 0 <= index <= items.len
        invariant forall p | index <= p < items.len :: items.data[p].key != key
      {
        index := index - 1;
        if items.data[index].key == key {
          return Some(index);
        }
      }
      at := None;
    }

    /** One attempt to enqueue. A closed buffer refuses. A key already held is replaced even
        when the buffer is full; anything else needs room. */
    method Enqueue(work: Work) returns (outcome: Enqueued)
      requires Valid()
      modifies this`items, this`history, this`stamps, items.data
      ensures Valid() && (items.data == old(items.data) || fresh(items.data))
      ensures outcome == Cancelled <==> closed
      ensures outcome == Full <==>
              !closed && old(items.len) == capacity &&
              (CoalesceKey(work) == "" || forall p | 0 <= p < old(items.len) :: old(items.Items())[p].key != CoalesceKey(work))
      ensures outcome != Entered ==> items.Items() == old(items.Items()) && history == old(history)
      ensures outcome == Entered ==>
                && history == old(history).(accepted := old(history).accepted + [work])
                && items.Items() != [] && items.Items()[items.len - 1] == Buffered(work, CoalesceKey(work))
    {
      if closed {
        return Cancelled;
      }
      var key := CoalesceKey(work);
      if key != "" {
        var at := Find(key);
        if at.Some? {
          Replace(at.value, work);
          return Entered;
        }
      }
      if items.len < capacity {
        Add(work);
        return Entered;
      }
      outcome := Full;
    }

    /** Append a work whose key nobody holds. */
    method Add(work: Work)
      requires Valid() && items.len < capacity
      requires CoalesceKey(work) != "" ==> forall p | 0 <= p < items.len :: items.data[p].key != CoalesceKey(work)
      modifies this`items, this`history, this`stamps, items.data
      ensures Valid() && (items.data == old(items.data) || fresh(items.data))
      ensures history == old(history).(accepted := old(history).accepted + [work])
      ensures items.len > 0 && items.Items()[items.len - 1] == Buffered(work, CoalesceKey(work))
    {
      AppendKeeps(history, stamps, items.Items(), work);
      items := Append(items, Buffered(work, CoalesceKey(work)));
      stamps := stamps + [|history.accepted|];
      history := history.(accepted := history.accepted + [work]);
    }

    /** Shift the later items over the replaced one, and write the new value last. */
    method Replace(at: nat, work: Work)
      requires Valid() && at < items.len && CoalesceKey(work) != "" && items.data[at].key == CoalesceKey(work)
      modifies this`history, this`stamps, items.data
      ensures Valid() && history == old(history).(accepted := old(history).accepted + [work])
      ensures items.Items()[items.len - 1] == Buffered(work, CoalesceKey(work))
    {
      ReplaceKeeps(history, stamps, items.Items(), work, at);
      ghost var held := items.Items();
      ShiftDown(items, at);
      items.data[items.len - 1] := Buffered(work, CoalesceKey(work));
      assert items.Items() == held[..at] + held[at + 1..] + [Buffered(work, CoalesceKey(work))];
      stamps := stamps[..at] + stamps[at + 1..] + [|history.accepted|];
      history := history.(accepted := history.accepted + [work]);
    }

    /** One attempt to dequeue: the oldest live work; a closed buffer is drained before it ends. */
    method Dequeue() returns (outcome: Dequeued)
      requires Valid()
      modifies this`items, this`history, this`stamps, items.data
      ensures Valid() && items.data == old(items.data)
      ensures outcome.Taken? <==> old(items.len) != 0
      ensures outcome == Ended <==> old(items.len) == 0 && closed
      ensures !outcome.Taken? ==> items == old(items) && history == old(history)
      ensures outcome.Taken? ==>
                && old(stamps) != [] && Live(old(history), old(stamps)[0])
                && (forall i: nat | Live(old(history), i) :: old(stamps)[0] <= i)
                && outcome.work == old(history).accepted[old(stamps)[0]]
                && history == old(history).(taken := old(history).taken + [old(stamps)[0]])
                && items.Items() == old(items.Items())[1..]
    {
      if items.len != 0 {
        DequeueKeeps(history, stamps, items.Items());
        outcome := Taken(items.data[0].work);
        items := Drop(items, 0);
        history := history.(taken := history.taken + [stamps[0]]);
        stamps := stamps[1..];
      } else if closed {
        outcome := Ended;
      } else {
        outcome := Empty;
      }
    }

    method Close()
      requires Valid()
      modifies this`closed
      ensures Valid() && closed
    {
      closed := true;
    }
  }
}
