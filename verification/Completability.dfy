/**
 When a message can still be completed from an idle state, with any provider: within the
 session at hand, and when the dispatcher may be restarted on other sessions.
 */
module Completability {
  import opened Options
  import opened Delivery
  import opened ProjectDelivery
  import opened ProjectRecovery
  import opened DeliveryProgress

  /** Restarts stay in the session, and nothing but the message is claimed. */
  predicate Local(actions: seq<Action>, k: Key) {
    forall a | a in actions :: (a.Restart? ==> a.session == k.session) && (a.Claim? ==> a.message == k.message)
  }

  /** What decides whether the message can be completed in the session at hand: its dispatch is
      recorded; or its attempt is spent and lookup can find it accepted here; or it may still be
      sent, and the ledger lets it through or the provider lets an uncertain one be retried. */
  predicate CanFinishHere(cfg: Config, s: State, m: Message) {
    || (cfg.project && m in s.dispatched)
    || (if cfg.project && AttemptSpent(s, m)
        then cfg.reconciles && (Acceptances(s, Current(s, m)) >= 1 || Current(s, m) in s.inflight)
        else LedgerOf(s, Current(s, m)) != Uncertain || cfg.reconciles || cfg.idempotent)
  }

  // ---------------------------------------------------------------------- it can be done

  lemma StartClaim(cfg: Config, prefix: seq<Action>, s: State, m: Message) returns (rest: seq<Action>, t: State)
    requires Run(cfg, prefix) == Some(s) && s.phase == Idle && m !in s.completed
    ensures Run(cfg, prefix + rest) == Some(t) && Local(rest, Current(s, m))
    ensures t == s.(active := None, phase := Claimed(m, cfg.project && m in s.dispatched),
                    attempts := if cfg.project && m !in s.attempts then s.attempts[m := AttemptPending] else s.attempts)
  {
    assert prefix + [] == prefix;
    rest, t := Then(cfg, prefix, [], s, Restart(s.session));
    rest, t := Then(cfg, prefix, rest, t, Claim(m));
  }

  lemma ToMark(cfg: Config, prefix: seq<Action>, start: seq<Action>, s: State, m: Message)
      returns (rest: seq<Action>, t: State)
    requires Run(cfg, prefix + start) == Some(s) && Local(start, Current(s, m))
    requires s.phase == Claimed(m, false)
    requires LedgerOf(s, Current(s, m)) == Unknown || LedgerOf(s, Current(s, m)) == Pending
    ensures Run(cfg, prefix + rest) == Some(t) && Local(rest, Current(s, m))
    ensures t == s.(phase := MarkUncertain(m), ledger := t.ledger)
  {
    rest, t := Then(cfg, prefix, start, s, Proceed);
    if LedgerOf(s, Current(s, m)) == Unknown {
      assert t == s.(phase := MarkPending(m));
      rest, t := Then(cfg, prefix, rest, t, Proceed);
    }
  }

  lemma LookAbsent(cfg: Config, prefix: seq<Action>, start: seq<Action>, s: State, m: Message)
      returns (rest: seq<Action>, t: State)
    requires Run(cfg, prefix + start) == Some(s) && Local(start, Current(s, m))
    requires s.phase == Claimed(m, false) && LedgerOf(s, Current(s, m)) == Uncertain
    requires if cfg.reconciles then Absent(s, Current(s, m)) else cfg.idempotent
    ensures Run(cfg, prefix + rest) == Some(t) && Local(rest, Current(s, m))
    ensures t == s.(phase := MarkUncertain(m))
  {
    rest, t := Then(cfg, prefix, start, s, Proceed);
    assert t == s.(phase := Recovering(m));
    rest, t := Then(cfg, prefix, rest, t, Looked(NotFound));
  }

  lemma MarkAndSubmit(cfg: Config, prefix: seq<Action>, start: seq<Action>, s: State, m: Message)
      returns (rest: seq<Action>, t: State)
    requires Run(cfg, prefix + start) == Some(s) && Local(start, Current(s, m))
    requires s.phase == MarkUncertain(m) && s.active.None?
    requires cfg.project ==> m in s.attempts && s.attempts[m] == AttemptPending
    ensures Run(cfg, prefix + rest) == Some(t) && Local(rest, Current(s, m))
    ensures t.phase == Submitting(m) && t.session == s.session && Current(s, m) in t.inflight
  {
    rest, t := Then(cfg, prefix, start, s, Proceed);
    if cfg.project {
      assert t == s.(phase := MarkAttempt(m), ledger := t.ledger);
      rest, t := Then(cfg, prefix, rest, t, Proceed);
    }
    assert t == s.(phase := Dispatching(m), ledger := t.ledger, attempts := t.attempts);
    rest, t := Then(cfg, prefix, rest, t, Proceed);
  }

  lemma LandAndFinish(cfg: Config, prefix: seq<Action>, start: seq<Action>, s: State, m: Message)
      returns (rest: seq<Action>)
    requires Run(cfg, prefix + start) == Some(s) && Local(start, Current(s, m))
    requires s.phase == Submitting(m) && Current(s, m) in s.inflight
    ensures Completes(cfg, prefix, rest, m) && Local(rest, Current(s, m))
  {
    var t;
    rest, t := Then(cfg, prefix, start, s, Land(Current(s, m)));
    assert t.phase == s.phase && t.session == s.session && Acceptances(t, Current(t, m)) >= 1;
    var answer, u := AcceptedAnswerCompletes(cfg, prefix + rest, "op");
    assert prefix + (rest + [answer, Proceed, Proceed, Proceed]) ==
           prefix + rest + [answer] + [Proceed, Proceed, Proceed];
    rest := rest + [answer, Proceed, Proceed, Proceed];
  }

  lemma LookAndFinish(cfg: Config, prefix: seq<Action>, start: seq<Action>, s: State, m: Message)
      returns (rest: seq<Action>)
    requires Run(cfg, prefix + start) == Some(s) && Local(start, Current(s, m)) && cfg.reconciles
    requires s.phase == Claimed(m, false) && LedgerOf(s, Current(s, m)) == Uncertain
    requires !Absent(s, Current(s, m))
    ensures Completes(cfg, prefix, rest, m) && Local(rest, Current(s, m))
  {
    var t;
    rest, t := Then(cfg, prefix, start, s, Proceed);
    assert t == s.(phase := Recovering(m));
    if Acceptances(t, Current(t, m)) == 0 {
      rest, t := Then(cfg, prefix, rest, t, Land(Current(t, m)));
    }
    assert t.phase == Recovering(m) && t.session == s.session && Acceptances(t, Current(t, m)) >= 1;
    rest := FoundAndFinish(cfg, prefix, rest, t, m);
  }

  lemma FoundAndFinish(cfg: Config, prefix: seq<Action>, start: seq<Action>, s: State, m: Message)
      returns (rest: seq<Action>)
    requires Run(cfg, prefix + start) == Some(s) && Local(start, Current(s, m)) && cfg.reconciles
    requires s.phase == Recovering(m) && Acceptances(s, Current(s, m)) >= 1
    ensures Completes(cfg, prefix, rest, m) && Local(rest, Current(s, m))
  {
    var t := FoundCompletes(cfg, prefix + start, "op");
    rest := start + [Looked(Found("op")), Proceed, Proceed, Proceed];
    assert prefix + rest == prefix + start + [Looked(Found("op"))] + [Proceed, Proceed, Proceed];
  }

  lemma KnownAndFinish(cfg: Config, prefix: seq<Action>, start: seq<Action>, s: State, m: Message)
      returns (rest: seq<Action>)
    requires Run(cfg, prefix + start) == Some(s) && Local(start, Current(s, m))
    requires s.phase.Claimed? && s.phase.message == m
    requires s.phase.dispatched || LedgerOf(s, Current(s, m)) == Accepted
    ensures Completes(cfg, prefix, rest, m) && Local(rest, Current(s, m))
  {
    var last, t := KnownAcceptanceCompletes(cfg, prefix + start, m);
    rest := start + last;
    assert prefix + rest == prefix + start + last;
  }

  lemma SendAndFinish(cfg: Config, prefix: seq<Action>, start: seq<Action>, s: State, m: Message)
      returns (rest: seq<Action>)
    requires Run(cfg, prefix + start) == Some(s) && Local(start, Current(s, m))
    requires s.phase == Claimed(m, false) && s.active.None?
    requires cfg.project ==> m in s.attempts && s.attempts[m] == AttemptPending
    requires LedgerOf(s, Current(s, m)) != Accepted
    requires LedgerOf(s, Current(s, m)) == Uncertain ==>
               if cfg.reconciles then Absent(s, Current(s, m)) else cfg.idempotent
    ensures Completes(cfg, prefix, rest, m) && Local(rest, Current(s, m))
  {
    var t;
    if LedgerOf(s, Current(s, m)) == Uncertain {
      rest, t := LookAbsent(cfg, prefix, start, s, m);
    } else {
      rest, t := ToMark(cfg, prefix, start, s, m);
    }
    rest, t := MarkAndSubmit(cfg, prefix, rest, t, m);
    rest := LandAndFinish(cfg, prefix, rest, t, m);
  }

  lemma FinishHere(cfg: Config, prefix: seq<Action>, m: Message) returns (rest: seq<Action>)
    requires Run(cfg, prefix).Some? && Run(cfg, prefix).value.phase == Idle
    requires m !in Run(cfg, prefix).value.completed && CanFinishHere(cfg, Run(cfg, prefix).value, m)
    ensures Completes(cfg, prefix, rest, m) && Local(rest, Current(Run(cfg, prefix).value, m))
  {
    var s := Run(cfg, prefix).value;
    RunsUncertain(cfg, prefix);
    var start, t := StartClaim(cfg, prefix, s, m);
    assert LedgerOf(t, Current(t, m)) == LedgerOf(s, Current(s, m));
    if t.phase.dispatched || LedgerOf(t, Current(t, m)) == Accepted {
      rest := KnownAndFinish(cfg, prefix, start, t, m);
    } else if cfg.reconciles && !Absent(t, Current(t, m)) {
      rest := LookAndFinish(cfg, prefix, start, t, m);
    } else {
      rest := SendAndFinish(cfg, prefix, start, t, m);
    }
  }

  // ---------------------------------------------------------------------- or it cannot

  /** The attempt is spent, the session has not accepted the message and cannot be about to. */
  ghost predicate ShutHere(s: State, k: Key) {
    Blocked(s, k.message) && Absent(s, k) && s.session == k.session
  }

  lemma AbsentStays(cfg: Config, s: State, a: Action, k: Key)
    requires Absent(s, k) && !BeingSent(s, k.message) && Act(cfg, s, a).Some?
    ensures Absent(Act(cfg, s, a).value, k)
  {
    if a.Proceed? {
      AdvanceWrites(cfg, s);
      AdvanceCalls(cfg, s);
    }
  }

  lemma ActShut(cfg: Config, s: State, a: Action, k: Key)
    requires cfg.project && cfg.reconciles && Filed(s) && ShutHere(s, k) && Act(cfg, s, a).Some?
    requires a.Restart? ==> a.session == k.session
    ensures ShutHere(Act(cfg, s, a).value, k)
  {
    AbsentStays(cfg, s, a, k);
    if a.Proceed? {
      AdvanceWrites(cfg, s);
      AdvanceBlocked(cfg, s, k.message);
    } else {
      SpentStaysSpent(cfg, s, a, k.message);
    }
  }

  lemma {:induction false} ShutForever(cfg: Config, prefix: seq<Action>, rest: seq<Action>, k: Key)
    requires cfg.project && cfg.reconciles && Run(cfg, prefix + rest).Some? && Run(cfg, prefix).Some?
    requires ShutHere(Run(cfg, prefix).value, k) && Local(rest, k)
    ensures ShutHere(Run(cfg, prefix + rest).value, k)
    decreases |rest|
  {
    if rest == [] {
      assert prefix + rest == prefix;
    } else {
      var n := |rest| - 1;
      assert (prefix + rest)[..|prefix + rest| - 1] == prefix + rest[..n];
      ShutForever(cfg, prefix, rest[..n], k);
      RunsFiled(cfg, prefix + rest[..n]);
      assert rest[n] in rest;
      ActShut(cfg, Run(cfg, prefix + rest[..n]).value, rest[n], k);
    }
  }

  /** Uncertain in this session, with no way to tell, and not past the lookup. */
  predicate Undecided(cfg: Config, s: State, k: Key) {
    && s.session == k.session && LedgerOf(s, k) == Uncertain
    && k.message !in s.completed && (cfg.project ==> k.message !in s.dispatched)
    && (!s.phase.Idle? && s.phase.message == k.message ==>
          s.phase == Claimed(k.message, false) || s.phase == Recovering(k.message))
  }

  lemma AdvanceUndecided(cfg: Config, s: State, k: Key)
    requires Undecided(cfg, s, k) && Advance(cfg, s).Some?
    ensures Undecided(cfg, Advance(cfg, s).value, k)
  {
    AdvanceWrites(cfg, s);
  }

  lemma ActUndecided(cfg: Config, s: State, a: Action, k: Key)
    requires !cfg.reconciles && !cfg.idempotent && Undecided(cfg, s, k) && Act(cfg, s, a).Some?
    requires a.Restart? ==> a.session == k.session
    ensures Undecided(cfg, Act(cfg, s, a).value, k)
  {
    if a.Proceed? {
      AdvanceUndecided(cfg, s, k);
    }
  }

  lemma {:induction false} UndecidedForever(cfg: Config, prefix: seq<Action>, rest: seq<Action>, k: Key)
    requires !cfg.reconciles && !cfg.idempotent && Run(cfg, prefix + rest).Some? && Run(cfg, prefix).Some?
    requires Undecided(cfg, Run(cfg, prefix).value, k) && Local(rest, k)
    ensures Undecided(cfg, Run(cfg, prefix + rest).value, k)
    decreases |rest|
  {
    if rest == [] {
      assert prefix + rest == prefix;
    } else {
      var n := |rest| - 1;
      assert (prefix + rest)[..|prefix + rest| - 1] == prefix + rest[..n];
      UndecidedForever(cfg, prefix, rest[..n], k);
      assert rest[n] in rest;
      ActUndecided(cfg, Run(cfg, prefix + rest[..n]).value, rest[n], k);
    }
  }

  lemma NeverHere(cfg: Config, prefix: seq<Action>, rest: seq<Action>, m: Message)
    requires Run(cfg, prefix).Some? && Run(cfg, prefix).value.phase == Idle
    requires m !in Run(cfg, prefix).value.completed && !CanFinishHere(cfg, Run(cfg, prefix).value, m)
    requires Local(rest, Current(Run(cfg, prefix).value, m))
    ensures !Completes(cfg, prefix, rest, m)
  {
    var s := Run(cfg, prefix).value;
    if Run(cfg, prefix + rest).Some? {
      if !(cfg.project && AttemptSpent(s, m)) {
        UndecidedForever(cfg, prefix, rest, Current(s, m));
      } else if cfg.reconciles {
        ShutForever(cfg, prefix, rest, Current(s, m));
      } else {
        BlockedForever(cfg, prefix, rest, m);
      }
    }
  }

  // ------------------------------------------------------------------------- main results

  /** With any provider and any configuration, from every idle state of every run: some
      continuation that stays in the session and claims only this message completes it exactly
      when the ledger, the attempt row and the provider's abilities allow it. */
  lemma CompletableHereExactly(cfg: Config, prefix: seq<Action>, m: Message)
    requires Run(cfg, prefix).Some? && Run(cfg, prefix).value.phase == Idle
    requires m !in Run(cfg, prefix).value.completed
    ensures (exists rest :: Local(rest, Current(Run(cfg, prefix).value, m)) && Completes(cfg, prefix, rest, m)) <==>
            CanFinishHere(cfg, Run(cfg, prefix).value, m)
  {
    if CanFinishHere(cfg, Run(cfg, prefix).value, m) {
      var rest := FinishHere(cfg, prefix, m);
    } else {
      forall rest | Local(rest, Current(Run(cfg, prefix).value, m))
        ensures !Completes(cfg, prefix, rest, m)
      {
        NeverHere(cfg, prefix, rest, m);
      }
    }
  }

  /** A session that no ledger entry names. */
  lemma FreshSession(keys: set<Key>) returns (session: Session)
    ensures forall k | k in keys :: |k.session| < |session|
    decreases keys
  {
    if keys == {} {
      session := "";
    } else {
      var k :| k in keys;
      var rest := FreshSession(keys - {k});
      session := rest + k.session + "s";
      forall other | other in keys
        ensures |other.session| < |session|
      {
        assert other == k || other in keys - {k};
      }
    }
  }

  lemma FinishElsewhere(cfg: Config, prefix: seq<Action>, m: Message) returns (rest: seq<Action>)
    requires Run(cfg, prefix).Some? && Run(cfg, prefix).value.phase == Idle
    requires m !in Run(cfg, prefix).value.completed && !(cfg.project && AttemptSpent(Run(cfg, prefix).value, m))
    ensures Completes(cfg, prefix, rest, m)
  {
    var s := Run(cfg, prefix).value;
    var unused := FreshSession(s.ledger.Keys);
    var more, t := Extend(cfg, prefix, s, Restart(unused));
    assert Current(t, m) !in t.ledger;
    var last := FinishHere(cfg, more, m);
    rest := [Restart(unused)] + last;
    assert prefix + rest == more + last;
  }

  /** With any provider and any configuration, from every idle state of every run: some
      continuation completes a message that is not complete exactly when its attempt is not
      spent, or its dispatch is recorded, or sessions can be asked and one has accepted it or may
      still do so. A message outside projects can therefore always be completed. */
  lemma CompletableFromIdle(cfg: Config, prefix: seq<Action>, m: Message)
    requires Run(cfg, prefix).Some? && Run(cfg, prefix).value.phase == Idle
    requires m !in Run(cfg, prefix).value.completed
    ensures (exists rest :: Completes(cfg, prefix, rest, m)) <==>
            || !(cfg.project && AttemptSpent(Run(cfg, prefix).value, m))
            || m in Run(cfg, prefix).value.dispatched
            || (cfg.reconciles && !Nowhere(Run(cfg, prefix).value, m))
  {
    if cfg.project && AttemptSpent(Run(cfg, prefix).value, m) {
      CompletableExactly(cfg, prefix, m);
    } else {
      var rest := FinishElsewhere(cfg, prefix, m);
    }
  }
}
