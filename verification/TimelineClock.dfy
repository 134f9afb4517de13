/**
 The timeline clock of a harness session: every output and activity gets a second of its own,
 later than everything before it, whatever the wall clock says. Times are nanoseconds since
 the Unix epoch.
 */
module TimelineClock {
  import opened EventWork
  import opened Options

  const SECOND := 1_000_000_000
  const MILLISECOND := 1_000_000

  /** The zero time: the first instant of year 1. It doubles as "no time yet". */
  const ZERO := -62_135_596_800 * SECOND

  /** The Unix second of an instant, rounded down. */
  function UnixSecond(t: int): int {
    t / SECOND
  }

  function Truncated(t: int): int {
    UnixSecond(t) * SECOND
  }

  /** The instant issued for a reading, after `last`. */
  function Issue(last: int, reading: int): int {
    if last != ZERO && UnixSecond(reading) <= UnixSecond(last) then (UnixSecond(last) + 1) * SECOND
    else Truncated(reading)
  }

  function Reading(occurredAt: int, now: int): int {
    if occurredAt == ZERO then now else occurredAt
  }

  /** The work with its times set, inside the second issued for it. */
  function Stamped(work: Work, issued: int, subsecond: int): Work {
    Work(
      if work.output.Some? then Some(work.output.value.(createdAt := issued)) else None,
      if work.activity.Some? then
        Some(work.activity.value.(
             occurredAt := issued + if work.output.Some? && subsecond < MILLISECOND then MILLISECOND else subsecond))
      else None)
  }

  /** The work apart from its times. */
  function Untimed(work: Work): Work {
    Work(
      if work.output.Some? then Some(work.output.value.(createdAt := 0)) else None,
      if work.activity.Some? then Some(work.activity.value.(occurredAt := 0)) else None)
  }

  predicate HasNothing(work: Work) {
    work.output.None? && work.activity.None?
  }

  // ------------------------------------------------------------------------------ single steps

  /** An issued instant is a whole second, not before the reading's own second. It is later than
      the last one exactly when there is a last one or the reading lies past the zero time. */
  lemma IssueAdvances(last: int, reading: int)
    ensures Issue(last, reading) % SECOND == 0
    ensures Issue(last, reading) >= Truncated(reading)
    ensures Issue(last, reading) > last <==> last != ZERO || Truncated(reading) > ZERO
  {
    assert last < (UnixSecond(last) + 1) * SECOND;
    assert UnixSecond(reading) > UnixSecond(last) ==> Truncated(reading) >= (UnixSecond(last) + 1) * SECOND;
  }

  /** A whole second, not before the reading's own, and after the last instant if there is one. */
  predicate Admissible(last: int, reading: int, s: int) {
    s % SECOND == 0 && s >= Truncated(reading) && (last != ZERO ==> s > last)
  }

  /** The first admissible second. */
  ghost predicate IsNextSecond(last: int, reading: int, s: int) {
    Admissible(last, reading, s) && forall other | Admissible(last, reading, other) :: s <= other
  }

  lemma IssueIsNext(last: int, reading: int)
    ensures IsNextSecond(last, reading, Issue(last, reading))
  {
    IssueAdvances(last, reading);
    forall other | Admissible(last, reading, other)
      ensures Issue(last, reading) <= other
    {
      if last != ZERO {
        IssueIsLeast(last, reading, other);
      }
    }
  }

  /** The smallest such second: nothing is skipped. */
  lemma IssueIsLeast(last: int, reading: int, other: int)
    requires last != ZERO && other % SECOND == 0 && other > last && other >= Truncated(reading)
    ensures Issue(last, reading) <= other
  {
    assert other == UnixSecond(other) * SECOND;
    assert UnixSecond(other) >= UnixSecond(reading);
  }

  /** A reading at the zero time is forgotten: the same instant is issued twice. */
  lemma ZeroIsForgotten()
    ensures Issue(Issue(ZERO, ZERO), ZERO) == Issue(ZERO, ZERO) == ZERO
  {
  }

  /** Times of one work stay inside its second; an activity follows the output it comes with. */
  lemma StampedStaysInside(work: Work, issued: int, reading: int)
    ensures var w := Stamped(work, issued, reading - Truncated(reading));
            && (w.output.Some? <==> work.output.Some?) && (w.activity.Some? <==> work.activity.Some?)
            && (w.output.Some? ==> w.output.value.createdAt == issued && w.output.value.key == work.output.value.key)
            && (w.activity.Some? ==>
                  && issued <= w.activity.value.occurredAt < issued + SECOND
                  && (w.output.Some? ==> w.activity.value.occurredAt >= w.output.value.createdAt + MILLISECOND)
                  && (w.output.Some? && reading % SECOND < MILLISECOND ==>
                        w.activity.value.occurredAt == issued + MILLISECOND)
                  && (w.output.None? || reading % SECOND >= MILLISECOND ==>
                        w.activity.value.occurredAt % SECOND == (issued + reading) % SECOND))
  {
    assert reading - Truncated(reading) == reading % SECOND;
    if work.activity.Some? && (work.output.None? || reading % SECOND >= MILLISECOND) {
      SameRemainder(issued, reading);
    }
  }

  lemma SameRemainder(a: int, t: int)
    ensures (a + t % SECOND) % SECOND == (a + t) % SECOND
  {
    assert a + t == (a + t % SECOND) + SECOND * (t / SECOND);
    MultipleDropsOut(a + t % SECOND, t / SECOND);
  }

  lemma MultipleDropsOut(a: int, k: int)
    ensures (a + SECOND * k) % SECOND == a % SECOND
  {
  }

  // ------------------------------------------------------------------------------------ runs

  datatype Action =
    | Next(now: int)
    | Advance(seen: int)
    | Assign(occurredAt: int, now: int, work: Work)

  /** What was issued: the second, and the work stamped with it, if any. */
  datatype Issued = Issued(second: int, work: Work)

  datatype Clock = Clock(last: int, issued: seq<Issued>)

  const NOTHING := Work(None, None)

  function Issuing(c: Clock, reading: int, work: Work): Clock {
    var second := Issue(c.last, reading);
    Clock(second, c.issued + [Issued(second, Stamped(work, second, reading - Truncated(reading)))])
  }

  function Act(c: Clock, a: Action): Clock {
    match a
    case Next(now) => Issuing(c, now, NOTHING)
    case Advance(seen) => if seen > c.last then c.(last := seen) else c
    case Assign(occurredAt, now, work) =>
      if HasNothing(work) then c else Issuing(c, Reading(occurredAt, now), work)
  }

  function Run(actions: seq<Action>): Clock {
    if actions == [] then Clock(ZERO, []) else Act(Run(actions[..|actions| - 1]), actions[|actions| - 1])
  }

  /** The wall clock and the provider's times lie past the zero time. */
  predicate PastZero(a: Action) {
    match a
    case Next(now) => Truncated(now) > ZERO
    case Advance(_) => true
    case Assign(occurredAt, now, work) => HasNothing(work) || Truncated(Reading(occurredAt, now)) > ZERO
  }

  /** One of the times given out with an issue. */
  predicate HasTime(e: Issued, t: int) {
    || t == e.second
    || (e.work.output.Some? && t == e.work.output.value.createdAt)
    || (e.work.activity.Some? && t == e.work.activity.value.occurredAt)
  }

  predicate InItsSecond(e: Issued) {
    && e.second % SECOND == 0
    && (e.work.output.Some? ==> e.work.output.value.createdAt == e.second)
    && (e.work.activity.Some? ==> e.second <= e.work.activity.value.occurredAt < e.second + SECOND)
  }

  predicate ClockInvariant(c: Clock) {
    && c.last >= ZERO
    && (forall p | 0 <= p < |c.issued| :: InItsSecond(c.issued[p]) && c.issued[p].second <= c.last)
    && (forall p, q | 0 <= p < q < |c.issued| :: c.issued[p].second < c.issued[q].second)
  }

  lemma IssuingKeeps(c: Clock, reading: int, work: Work)
    requires ClockInvariant(c) && Truncated(reading) > ZERO
    ensures ClockInvariant(Issuing(c, reading, work))
  {
    IssueAdvances(c.last, reading);
    StampedStaysInside(work, Issue(c.last, reading), reading);
  }

  lemma {:induction false} RunsKeepClock(actions: seq<Action>)
    requires forall a | a in actions :: PastZero(a)
    ensures ClockInvariant(Run(actions))
  {
    if actions != [] {
      var n := |actions| - 1;
      RunsKeepClock(actions[..n]);
      var c := Run(actions[..n]);
      assert PastZero(actions[n]);
      match actions[n]
      case Next(now) => IssuingKeeps(c, now, NOTHING);
      case Advance(_) =>
      case Assign(occurredAt, now, work) =>
        if !HasNothing(work) {
          IssuingKeeps(c, Reading(occurredAt, now), work);
        }
    }
  }

  /** In every run, every time given out with one issue is before every time of a later one. */
  lemma TimesFollowIssueOrder(actions: seq<Action>, p: nat, q: nat, t: int, u: int)
    requires forall a | a in actions :: PastZero(a)
    requires p < q < |Run(actions).issued| && HasTime(Run(actions).issued[p], t) && HasTime(Run(actions).issued[q], u)
    ensures t < u
  {
    RunsKeepClock(actions);
    var c := Run(actions);
    assert InItsSecond(c.issued[p]) && InItsSecond(c.issued[q]);
    SecondsApart(c.issued[p].second, c.issued[q].second);
  }

  lemma SecondsApart(a: int, b: int)
    requires a < b && a % SECOND == 0 && b % SECOND == 0
    ensures a + SECOND <= b
  {
  }

  /** In every run, a time is issued only after every time the clock was advanced to before. */
  lemma IssuedAfterSeen(actions: seq<Action>, seen: int, now: int)
    requires forall a | a in actions :: PastZero(a)
    requires Advance(seen) in actions && Truncated(now) > ZERO
    ensures Issue(Run(actions).last, now) > seen
  {
    RunsKeepClock(actions);
    SeenIsReached(actions, seen);
    IssueAdvances(Run(actions).last, now);
  }

  lemma {:induction false} SeenIsReached(actions: seq<Action>, seen: int)
    requires forall a | a in actions :: PastZero(a)
    requires Advance(seen) in actions
    ensures Run(actions).last >= seen
  {
    var n := |actions| - 1;
    var before, a := actions[..n], actions[n];
    assert actions == before + [a];
    if a != Advance(seen) {
      SeenIsReached(before, seen);
      assert PastZero(a);
      if a.Next? {
        IssueAdvances(Run(before).last, a.now);
      } else if a.Assign? && !HasNothing(a.work) {
        IssueAdvances(Run(before).last, Reading(a.occurredAt, a.now));
      }
    }
  }

  class EventRelay {
    var lastTimelineAt: int
    ghost var issued: seq<Issued>

    ghost function View(): Clock
      reads this
    {
      Clock(lastTimelineAt, issued)
    }

    constructor ()
      ensures View() == Run([])
    {
      lastTimelineAt, issued := ZERO, [];
    }

    /** The first admissible second, which becomes the last instant; so it is later than the
        last one whenever there was one or the wall clock is past the zero time. */
    method NextCreatedAt(now: int) returns (createdAt: int)
      modifies this
      ensures IsNextSecond(old(lastTimelineAt), now, createdAt) && lastTimelineAt == createdAt
      ensures old(lastTimelineAt) != ZERO || Truncated(now) > ZERO ==> createdAt > old(lastTimelineAt)
      ensures View() == Act(old(View()), Next(now))
    {
      IssueIsNext(lastTimelineAt, now);
      createdAt := Truncated(now);
      if lastTimelineAt != ZERO && UnixSecond(createdAt) <= UnixSecond(lastTimelineAt) {
        createdAt := (UnixSecond(lastTimelineAt) + 1) * SECOND;
      }
      lastTimelineAt := createdAt;
      issued := issued + [Issued(createdAt, NOTHING)];
    }

    /** The later of the two instants. */
    method AdvanceCreatedAt(seen: int)
      modifies this`lastTimelineAt
      ensures lastTimelineAt >= seen && lastTimelineAt >= old(lastTimelineAt)
      ensures lastTimelineAt == seen || lastTimelineAt == old(lastTimelineAt)
      ensures View() == Act(old(View()), Advance(seen))
    {
      if seen > lastTimelineAt {
        lastTimelineAt := seen;
      }
    }

    /** The work gets the first admissible second to itself: its output exactly then, its
        activity within that second, and after the output by a millisecond at least. Nothing
        else about the work changes. */
    method AssignWorkTime(occurredAt: int, now: int, work: Work) returns (stamped: Work)
      modifies this
      ensures View() == Act(old(View()), Assign(occurredAt, now, work))
      ensures HasNothing(work) ==> stamped == work && lastTimelineAt == old(lastTimelineAt)
      ensures !HasNothing(work) ==>
                && IsNextSecond(old(lastTimelineAt), if occurredAt == ZERO then now else occurredAt, lastTimelineAt)
                && issued == old(issued) + [Issued(lastTimelineAt, stamped)]
      ensures Untimed(stamped) == Untimed(work)
      ensures work.output.Some? ==> stamped.output.value.createdAt == lastTimelineAt
      ensures work.activity.Some? ==>
                && lastTimelineAt <= stamped.activity.value.occurredAt < lastTimelineAt + SECOND
                && (work.output.Some? ==> stamped.activity.value.occurredAt >= lastTimelineAt + MILLISECOND)
    {
      IssueIsNext(lastTimelineAt, Reading(occurredAt, now));
      StampedStaysInside(work, Issue(lastTimelineAt, Reading(occurredAt, now)), Reading(occurredAt, now));
      stamped := work;
      if HasNothing(work) {
        return;
      }
      var at := if occurredAt == ZERO then now else occurredAt;
      var subsecond := at - Truncated(at);
      var canonicalSecond := Truncated(at);
      if lastTimelineAt != ZERO && UnixSecond(canonicalSecond) <= UnixSecond(lastTimelineAt) {
        canonicalSecond := (UnixSecond(lastTimelineAt) + 1) * SECOND;
      }
      lastTimelineAt := canonicalSecond;
      if stamped.output.Some? {
        stamped := stamped.(output := Some(stamped.output.value.(createdAt := canonicalSecond)));
      }
      if stamped.activity.Some? {
        if stamped.output.Some? && subsecond < MILLISECOND {
          subsecond := MILLISECOND;
        }
        stamped := stamped.(activity := Some(stamped.activity.value.(occurredAt := canonicalSecond + subsecond)));
      }
      issued := issued + [Issued(canonicalSecond, stamped)];
    }
  }
}
