/**
 When a project message that was marked and given back can still be completed: exactly when
 its dispatch is recorded, or lookup can find a session that accepted it.
 */
module ProjectRecovery {
  import opened Options
  import opened Delivery
  import opened ProjectDelivery

  // ------------------------------------------------------------------ what runs keep

  /** An accepted ledger entry or attempt, and every phase past the record, has its dispatch
      recorded. */
  ghost predicate Filed(s: State) {
    && (forall k | LedgerOf(s, k) == Accepted :: k.message in s.dispatched)
    && (forall m | m in s.attempts && s.attempts[m] == AttemptAccepted :: m in s.dispatched)
    && (PastRecord(s.phase) ==> s.phase.message in s.dispatched)
  }

  predicate PastRecord(phase: Phase) {
    phase.MarkAccepted? || phase.RecordAccepted? || phase.Completing? || (phase.Claimed? && phase.dispatched)
  }

  lemma AdvanceFiled(cfg: Config, s: State)
    requires cfg.project && Filed(s) && Advance(cfg, s).Some?
    ensures Filed(Advance(cfg, s).value)
  {
    AdvanceWrites(cfg, s);
    var t := Advance(cfg, s).value;
    assert s.dispatched <= t.dispatched;
    forall k | LedgerOf(t, k) == Accepted
      ensures k.message in t.dispatched
    {
      assert LedgerOf(s, k) == Accepted || (s.phase.MarkAccepted? && k == Current(s, s.phase.message));
    }
  }

  lemma ActFiled(cfg: Config, s: State, a: Action)
    requires cfg.project && Filed(s) && Act(cfg, s, a).Some?
    ensures Filed(Act(cfg, s, a).value)
  {
    if a.Proceed? {
      AdvanceFiled(cfg, s);
    } else {
      var t := Act(cfg, s, a).value;
      assert t.ledger == s.ledger && t.dispatched == s.dispatched;
      assert forall k :: LedgerOf(t, k) == LedgerOf(s, k);
    }
  }

  lemma {:induction false} RunsFiled(cfg: Config, actions: seq<Action>)
    requires cfg.project && Run(cfg, actions).Some?
    ensures Filed(Run(cfg, actions).value)
  {
    if actions != [] {
      var n := |actions| - 1;
      RunsFiled(cfg, actions[..n]);
      ActFiled(cfg, Run(cfg, actions[..n]).value, actions[n]);
    }
  }

  /** What was sent, or may still arrive, is at least uncertain in the ledger. */
  ghost predicate SentIsUncertain(s: State) {
    forall k | Acceptances(s, k) >= 1 || k in s.inflight :: Rank(LedgerOf(s, k)) >= Rank(Uncertain)
  }

  lemma ActUncertain(cfg: Config, s: State, a: Action)
    requires LedgerFits(s) && SentIsUncertain(s) && Act(cfg, s, a).Some?
    ensures SentIsUncertain(Act(cfg, s, a).value)
  {
    var t := Act(cfg, s, a).value;
    if a.Proceed? {
      AdvanceWrites(cfg, s);
      AdvanceCalls(cfg, s);
    }
    forall k | Acceptances(t, k) >= 1 || k in t.inflight
      ensures Rank(LedgerOf(t, k)) >= Rank(Uncertain)
    {
      assert Acceptances(s, k) >= 1 || k in s.inflight || (s.phase.Dispatching? && k == Current(s, s.phase.message));
      assert Rank(LedgerOf(s, k)) >= Rank(Uncertain);
    }
  }

  lemma {:induction false} RunsUncertain(cfg: Config, actions: seq<Action>)
    requires Run(cfg, actions).Some?
    ensures SentIsUncertain(Run(cfg, actions).value)
  {
    if actions != [] {
      var n := |actions| - 1;
      RunsUncertain(cfg, actions[..n]);
      RunsFit(cfg, actions[..n]);
      ActUncertain(cfg, Run(cfg, actions[..n]).value, actions[n]);
    }
  }

  // -------------------------------------------------------------- without lookup: never

  /** Marked, given back, and not about to be recorded. */
  ghost predicate Blocked(s: State, m: Message) {
    && AttemptSpent(s, m) && !BeingSent(s, m) && m !in s.dispatched && m !in s.completed
    && !((s.phase.RecordRecovered? || s.phase.Recording?) && s.phase.message == m)
  }

  lemma AdvanceBlocked(cfg: Config, s: State, m: Message)
    requires cfg.project && Filed(s) && Blocked(s, m) && Advance(cfg, s).Some?
    ensures Blocked(Advance(cfg, s).value, m)
  {
    AdvanceStaysSpent(cfg, s, m);
  }

  lemma ActBlocked(cfg: Config, s: State, a: Action, m: Message)
    requires cfg.project && !cfg.reconciles && Filed(s) && Blocked(s, m) && Act(cfg, s, a).Some?
    ensures Blocked(Act(cfg, s, a).value, m)
  {
    if a.Proceed? {
      AdvanceBlocked(cfg, s, m);
    } else {
      SpentStaysSpent(cfg, s, a, m);
    }
  }

  lemma {:induction false} BlockedForever(cfg: Config, prefix: seq<Action>, rest: seq<Action>, m: Message)
    requires cfg.project && !cfg.reconciles && Run(cfg, prefix + rest).Some? && Run(cfg, prefix).Some?
    requires Blocked(Run(cfg, prefix).value, m)
    ensures Blocked(Run(cfg, prefix + rest).value, m)
    decreases |rest|
  {
    if rest == [] {
      assert prefix + rest == prefix;
    } else {
      var n := |rest| - 1;
      assert (prefix + rest)[..|prefix + rest| - 1] == prefix + rest[..n];
      BlockedForever(cfg, prefix, rest[..n], m);
      RunsFiled(cfg, prefix + rest[..n]);
      ActBlocked(cfg, Run(cfg, prefix + rest[..n]).value, rest[n], m);
    }
  }

  // ------------------------------------------------------------- otherwise: it can be done

  lemma Then(cfg: Config, prefix: seq<Action>, rest: seq<Action>, s: State, a: Action) returns (more: seq<Action>, t: State)
    requires Run(cfg, prefix + rest) == Some(s) && Act(cfg, s, a).Some?
    ensures more == rest + [a] && t == Act(cfg, s, a).value && Run(cfg, prefix + more) == Some(t)
  {
    more := rest + [a];
    assert prefix + more == prefix + rest + [a];
    var longer;
    longer, t := Extend(cfg, prefix + rest, s, a);
  }

  /** Nothing but the message is claimed. */
  predicate ClaimsOnly(actions: seq<Action>, m: Message) {
    forall a | a in actions && a.Claim? :: a.message == m
  }

  lemma CompleteRecorded(cfg: Config, prefix: seq<Action>, m: Message) returns (rest: seq<Action>)
    requires cfg.project && Run(cfg, prefix).Some? && Run(cfg, prefix).value.phase == Idle
    requires m in Run(cfg, prefix).value.dispatched && m !in Run(cfg, prefix).value.completed
    ensures Run(cfg, prefix + rest).Some? && m in Run(cfg, prefix + rest).value.completed && ClaimsOnly(rest, m)
  {
    assert prefix + [] == prefix;
    var s := Run(cfg, prefix).value;
    var t;
    rest, t := Then(cfg, prefix, [], s, Claim(m));
    assert t.phase == Claimed(m, true);
    rest, t := Then(cfg, prefix, rest, t, Proceed);
    assert t.phase == Completing(m);
    rest, t := Then(cfg, prefix, rest, t, Proceed);
  }

  /** Restart in the session, and let a call that is still open arrive. */
  lemma Arrive(cfg: Config, prefix: seq<Action>, k: Key) returns (rest: seq<Action>, t: State)
    requires Run(cfg, prefix).Some? && !Absent(Run(cfg, prefix).value, k)
    ensures Run(cfg, prefix + rest) == Some(t) && Acceptances(t, k) >= 1 && ClaimsOnly(rest, k.message)
    ensures var s := Run(cfg, prefix).value;
            t == s.(session := k.session, phase := Idle, active := None, inflight := t.inflight, accepted := t.accepted)
  {
    assert prefix + [] == prefix;
    rest, t := Then(cfg, prefix, [], Run(cfg, prefix).value, Restart(k.session));
    if Acceptances(t, k) == 0 {
      rest, t := Then(cfg, prefix, rest, t, Land(k));
    }
  }

  /** Claim the message and find it by lookup. */
  lemma FindAccepted(cfg: Config, prefix: seq<Action>, start: seq<Action>, s: State, m: Message)
      returns (rest: seq<Action>, t: State)
    requires cfg.project && cfg.reconciles && Run(cfg, prefix + start) == Some(s) && ClaimsOnly(start, m)
    requires s.phase == Idle && m !in s.completed && m !in s.dispatched && m in s.attempts
    requires LedgerOf(s, Current(s, m)) == Uncertain && Acceptances(s, Current(s, m)) >= 1
    ensures Run(cfg, prefix + rest) == Some(t) && ClaimsOnly(rest, m)
    ensures t == s.(phase := RecordRecovered(m), active := Some("found"))
  {
    rest, t := Then(cfg, prefix, start, s, Claim(m));
    assert t == s.(phase := Claimed(m, false));
    rest, t := Then(cfg, prefix, rest, t, Proceed);
    assert t == s.(phase := Recovering(m));
    rest, t := Then(cfg, prefix, rest, t, Looked(Found("found")));
  }

  lemma RecordAndComplete(cfg: Config, prefix: seq<Action>, start: seq<Action>, s: State, m: Message)
      returns (rest: seq<Action>)
    requires cfg.project && Run(cfg, prefix + start) == Some(s) && ClaimsOnly(start, m)
    requires s.phase == RecordRecovered(m) && m in s.attempts && s.attempts[m] == AttemptUncertain
    ensures Run(cfg, prefix + rest).Some? && m in Run(cfg, prefix + rest).value.completed && ClaimsOnly(rest, m)
  {
    var t;
    rest, t := Then(cfg, prefix, start, s, Proceed);
    assert t.phase == MarkAccepted(m);
    rest, t := Then(cfg, prefix, rest, t, Proceed);
    assert t.phase == Completing(m);
    rest, t := Then(cfg, prefix, rest, t, Proceed);
  }

  lemma CompleteByLookup(cfg: Config, prefix: seq<Action>, m: Message) returns (rest: seq<Action>)
    requires cfg.project && cfg.reconciles && Run(cfg, prefix).Some?
    requires var s := Run(cfg, prefix).value;
             AttemptSpent(s, m) && m !in s.completed && m !in s.dispatched && !Nowhere(s, m)
    ensures Run(cfg, prefix + rest).Some? && m in Run(cfg, prefix + rest).value.completed && ClaimsOnly(rest, m)
  {
    var s := Run(cfg, prefix).value;
    RunsFiled(cfg, prefix);
    RunsUncertain(cfg, prefix);
    var session :| !Absent(s, Key(session, m));
    assert LedgerOf(s, Key(session, m)) == Uncertain;
    var t;
    rest, t := Arrive(cfg, prefix, Key(session, m));
    assert LedgerOf(t, Current(t, m)) == Uncertain;
    rest, t := FindAccepted(cfg, prefix, rest, t, m);
    rest := RecordAndComplete(cfg, prefix, rest, t, m);
  }

  // ---------------------------------------------------------------------------- main result

  ghost predicate Completes(cfg: Config, prefix: seq<Action>, rest: seq<Action>, m: Message) {
    Run(cfg, prefix + rest).Some? && m in Run(cfg, prefix + rest).value.completed
  }

  /** With any provider, a project message that was marked and given back, and is not complete,
      is completed by some continuation exactly when its dispatch is recorded, or sessions can be
      asked and one has accepted the message or may still do so. */
  lemma CompletableExactly(cfg: Config, prefix: seq<Action>, m: Message)
    requires cfg.project && Run(cfg, prefix).Some? && Run(cfg, prefix).value.phase == Idle
    requires AttemptSpent(Run(cfg, prefix).value, m) && m !in Run(cfg, prefix).value.completed
    ensures (exists rest :: Completes(cfg, prefix, rest, m)) <==>
            m in Run(cfg, prefix).value.dispatched || (cfg.reconciles && !Nowhere(Run(cfg, prefix).value, m))
  {
    if m !in Run(cfg, prefix).value.dispatched && (cfg.reconciles ==> Nowhere(Run(cfg, prefix).value, m)) {
      forall rest
        ensures !Completes(cfg, prefix, rest, m)
      {
        NeverCompletes(cfg, prefix, rest, m);
      }
    } else {
      var rest := Complete(cfg, prefix, m);
    }
  }

  lemma Complete(cfg: Config, prefix: seq<Action>, m: Message) returns (rest: seq<Action>)
    requires cfg.project && Run(cfg, prefix).Some? && Run(cfg, prefix).value.phase == Idle
    requires AttemptSpent(Run(cfg, prefix).value, m) && m !in Run(cfg, prefix).value.completed
    requires m in Run(cfg, prefix).value.dispatched || (cfg.reconciles && !Nowhere(Run(cfg, prefix).value, m))
    ensures Completes(cfg, prefix, rest, m) && ClaimsOnly(rest, m)
  {
    if m in Run(cfg, prefix).value.dispatched {
      rest := CompleteRecorded(cfg, prefix, m);
    } else {
      rest := CompleteByLookup(cfg, prefix, m);
    }
  }

  lemma NeverCompletes(cfg: Config, prefix: seq<Action>, rest: seq<Action>, m: Message)
    requires cfg.project && Run(cfg, prefix).Some? && Run(cfg, prefix).value.phase == Idle
    requires AttemptSpent(Run(cfg, prefix).value, m) && m !in Run(cfg, prefix).value.completed
    requires m !in Run(cfg, prefix).value.dispatched && (cfg.reconciles ==> Nowhere(Run(cfg, prefix).value, m))
    ensures !Completes(cfg, prefix, rest, m)
  {
    if Run(cfg, prefix + rest).Some? {
      if cfg.reconciles {
        StuckForever(cfg, prefix, rest, m);
      } else {
        BlockedForever(cfg, prefix, rest, m);
      }
    }
  }

  /** Without lookup even an accepted message is lost: the submission lands, the dispatcher
      crashes before the answer, and no continuation completes the message. */
  lemma AcceptedAndLost(cfg: Config) returns (actions: seq<Action>, s: State)
    requires cfg.project && !cfg.reconciles
    ensures Run(cfg, actions) == Some(s) && s.phase == Idle && AttemptSpent(s, "m")
    ensures Acceptances(s, Key("s", "m")) == 1
    ensures forall rest :: !Completes(cfg, actions, rest, "m")
  {
    actions, s := Extend(cfg, [], INITIAL, Restart("s"));
    actions, s := SendFirst(cfg, actions, s);
    actions, s := LandAndCrash(cfg, actions, s);
    forall rest
      ensures !Completes(cfg, actions, rest, "m")
    {
      NeverCompletes(cfg, actions, rest, "m");
    }
  }

  lemma LandAndCrash(cfg: Config, start: seq<Action>, s: State) returns (actions: seq<Action>, t: State)
    requires Run(cfg, start) == Some(s) && s.phase == Dispatching("m") && s.active.None? && s.session == "s"
    requires s.accepted == map[] && s.inflight == {}
    ensures Run(cfg, actions) == Some(t) && t == s.(phase := Idle, accepted := map[Key("s", "m") := 1])
  {
    actions, t := Extend(cfg, start, s, Proceed);
    assert t == s.(phase := Submitting("m"), inflight := {Key("s", "m")});
    actions, t := Extend(cfg, actions, t, Land(Key("s", "m")));
    assert t == s.(phase := Submitting("m"), accepted := map[Key("s", "m") := 1]);
    actions, t := Extend(cfg, actions, t, Restart("s"));
  }
}
