/**
 What becomes of a project message that was marked as being sent and then given back: the
 store marks only a pending attempt, so it is never sent again.
 */
module ProjectDelivery {
  import opened Options
  import opened Delivery

  /** The message is between the start of its dispatch loop and the end of a call. */
  predicate BeingSent(s: State, m: Message) {
    (s.phase.Dispatching? || s.phase.Submitting? || s.phase.Steering? || s.phase.SteerLookup? || s.phase.Waiting?) &&
    s.phase.message == m
  }

  /** The attempt row has left the pending state. */
  predicate AttemptSpent(s: State, m: Message) {
    m in s.attempts && s.attempts[m] != AttemptPending
  }

  lemma AdvanceStaysSpent(cfg: Config, s: State, m: Message)
    requires cfg.project && AttemptSpent(s, m) && !BeingSent(s, m) && Advance(cfg, s).Some?
    ensures AttemptSpent(Advance(cfg, s).value, m) && !BeingSent(Advance(cfg, s).value, m)
  {
  }

  lemma SpentStaysSpent(cfg: Config, s: State, a: Action, m: Message)
    requires cfg.project && AttemptSpent(s, m) && !BeingSent(s, m) && Act(cfg, s, a).Some?
    ensures AttemptSpent(Act(cfg, s, a).value, m) && !BeingSent(Act(cfg, s, a).value, m)
  {
    if a.Proceed? {
      AdvanceStaysSpent(cfg, s, m);
    }
  }

  /** A project message whose attempt was marked uncertain and then given back is never sent
      again, in any continuation: the store refuses to mark the attempt a second time, even
      when the provider has since proved the submission absent. */
  lemma {:induction false} ProjectMessagesAreNotResent(cfg: Config, prefix: seq<Action>, rest: seq<Action>, m: Message)
    requires cfg.project && Run(cfg, prefix + rest).Some? && Run(cfg, prefix).Some?
    requires AttemptSpent(Run(cfg, prefix).value, m) && !BeingSent(Run(cfg, prefix).value, m)
    ensures AttemptSpent(Run(cfg, prefix + rest).value, m) && !BeingSent(Run(cfg, prefix + rest).value, m)
    decreases |rest|
  {
    if rest == [] {
      assert prefix + rest == prefix;
    } else {
      var n := |rest| - 1;
      assert (prefix + rest)[..|prefix + rest| - 1] == prefix + rest[..n];
      ProjectMessagesAreNotResent(cfg, prefix, rest[..n], m);
      SpentStaysSpent(cfg, Run(cfg, prefix + rest[..n]).value, rest[n], m);
    }
  }

  // ----------------------------------------------------------- presence, for any provider

  /** Whatever the provider does: an accepted ledger entry, a recorded dispatch, a completed
      message, and every phase after an acceptance rest on a real acceptance. */
  ghost predicate Present(s: State) {
    && (forall k | LedgerOf(s, k) == Accepted :: Acceptances(s, k) >= 1)
    && StoreInvariant(s)
    && PhasePresent(s)
  }

  ghost predicate PhasePresent(s: State) {
    if s.phase.Claimed? then s.phase.dispatched ==> SomewhereAccepted(s, s.phase.message)
    else if s.phase.Completing? then SomewhereAccepted(s, s.phase.message)
    else if s.phase.RecordRecovered? || s.phase.Recording? || s.phase.MarkAccepted? || s.phase.RecordAccepted?
    then Acceptances(s, Current(s, s.phase.message)) >= 1
    else true
  }

  lemma PresenceStays(cfg: Config, s: State, a: Action, k: Key)
    requires Act(cfg, s, a).Some? && Acceptances(s, k) >= 1
    ensures Acceptances(Act(cfg, s, a).value, k) >= 1
  {
  }

  lemma SomewhereStays(cfg: Config, s: State, a: Action, m: Message)
    requires Act(cfg, s, a).Some? && SomewhereAccepted(s, m)
    ensures SomewhereAccepted(Act(cfg, s, a).value, m)
  {
    var session :| Acceptances(s, Key(session, m)) >= 1;
    PresenceStays(cfg, s, a, Key(session, m));
  }

  lemma StorePresent(cfg: Config, s: State, a: Action)
    requires Present(s) && Act(cfg, s, a).Some?
    ensures StoreInvariant(Act(cfg, s, a).value)
  {
    var t := Act(cfg, s, a).value;
    forall m | m in t.completed || m in t.dispatched
      ensures SomewhereAccepted(t, m)
    {
      if m !in s.completed && m !in s.dispatched {
        StoreGains(cfg, s, a, m);
        assert s.phase.Completing? || Acceptances(s, Current(s, m)) >= 1;
      }
      SomewhereStays(cfg, s, a, m);
    }
  }

  lemma LedgerPresent(cfg: Config, s: State, a: Action, k: Key)
    requires Present(s) && Act(cfg, s, a).Some? && LedgerOf(Act(cfg, s, a).value, k) == Accepted
    ensures Acceptances(Act(cfg, s, a).value, k) >= 1
  {
    if a.Proceed? {
      AdvanceWrites(cfg, s);
    }
    if LedgerOf(s, k) == Accepted {
      PresenceStays(cfg, s, a, k);
    }
  }

  lemma AdvancePresent(cfg: Config, s: State)
    requires Present(s) && Advance(cfg, s).Some?
    ensures PhasePresent(Advance(cfg, s).value)
  {
    AdvanceWrites(cfg, s);
    if s.phase.Claimed? && s.phase.dispatched {
      SomewhereStays(cfg, s, Proceed, s.phase.message);
    }
  }

  lemma OthersPresent(cfg: Config, s: State, a: Action)
    requires Present(s) && Act(cfg, s, a).Some? && !a.Proceed?
    ensures PhasePresent(Act(cfg, s, a).value)
  {
    if !s.phase.Idle? && !a.Claim? && SomewhereAccepted(s, s.phase.message) {
      SomewhereStays(cfg, s, a, s.phase.message);
    }
    if a.Claim? && a.message in s.dispatched {
      SomewhereStays(cfg, s, a, a.message);
    }
  }

  lemma {:induction false} RunsKeepPresent(cfg: Config, actions: seq<Action>)
    requires Run(cfg, actions).Some?
    ensures Present(Run(cfg, actions).value)
  {
    if actions != [] {
      var n := |actions| - 1;
      var s, a := Run(cfg, actions[..n]).value, actions[n];
      RunsKeepPresent(cfg, actions[..n]);
      StorePresent(cfg, s, a);
      forall k | LedgerOf(Act(cfg, s, a).value, k) == Accepted
        ensures Acceptances(Act(cfg, s, a).value, k) >= 1
      {
        LedgerPresent(cfg, s, a, k);
      }
      if a.Proceed? {
        AdvancePresent(cfg, s);
      } else {
        OthersPresent(cfg, s, a);
      }
    }
  }

  /** With any provider, safe or not, HQ completes a message only after some session accepted
      it, and the ledger says accepted only of submissions that were. */
  lemma CompletionMeansAcceptance(cfg: Config, actions: seq<Action>)
    requires Run(cfg, actions).Some?
    ensures forall m | m in Run(cfg, actions).value.completed :: SomewhereAccepted(Run(cfg, actions).value, m)
    ensures forall k | LedgerOf(Run(cfg, actions).value, k) == Accepted :: Acceptances(Run(cfg, actions).value, k) >= 1
  {
    RunsKeepPresent(cfg, actions);
  }

  // ------------------------------------------------------------------------ stuck messages

  /** No session has accepted the message, and none can still be about to. */
  ghost predicate Nowhere(s: State, m: Message) {
    forall session :: Absent(s, Key(session, m))
  }

  /** Given back after it was marked, and accepted nowhere. */
  ghost predicate Stuck(s: State, m: Message) {
    AttemptSpent(s, m) && !BeingSent(s, m) && Nowhere(s, m)
  }

  lemma NowhereStays(cfg: Config, s: State, a: Action, m: Message)
    requires Nowhere(s, m) && !BeingSent(s, m) && Act(cfg, s, a).Some?
    ensures Nowhere(Act(cfg, s, a).value, m)
  {
    var t := Act(cfg, s, a).value;
    forall session
      ensures Absent(t, Key(session, m))
    {
      assert Absent(s, Key(session, m));
      if a.Proceed? {
        AdvanceWrites(cfg, s);
        AdvanceCalls(cfg, s);
      }
    }
  }

  /** A stuck message stays stuck: in no continuation is it ever sent, accepted by any session,
      or completed. */
  lemma {:induction false} StuckForever(cfg: Config, prefix: seq<Action>, rest: seq<Action>, m: Message)
    requires cfg.project && Run(cfg, prefix + rest).Some? && Run(cfg, prefix).Some?
    requires Stuck(Run(cfg, prefix).value, m)
    ensures Stuck(Run(cfg, prefix + rest).value, m) && m !in Run(cfg, prefix + rest).value.completed
    decreases |rest|
  {
    if rest == [] {
      assert prefix + rest == prefix;
    } else {
      var n := |rest| - 1;
      assert (prefix + rest)[..|prefix + rest| - 1] == prefix + rest[..n];
      StuckForever(cfg, prefix, rest[..n], m);
      SpentStaysSpent(cfg, Run(cfg, prefix + rest[..n]).value, rest[n], m);
      NowhereStays(cfg, Run(cfg, prefix + rest[..n]).value, rest[n], m);
    }
    CompletionMeansAcceptance(cfg, prefix + rest);
  }

  /** One rejected submission is enough. */
  lemma RejectionGetsStuck(cfg: Config) returns (actions: seq<Action>, s: State)
    requires cfg.project
    ensures Run(cfg, actions) == Some(s) && Stuck(s, "m")
    ensures s.phase == Idle && s.session == "s" && s.attempts == map["m" := AttemptUncertain]
    ensures s.ledger == map[Key("s", "m") := Uncertain] && s.accepted == map[] && s.inflight == {} && s.completed == {}
    ensures s.dispatched == {}
  {
    actions, s := Extend(cfg, [], INITIAL, Restart("s"));
    actions, s := SendFirst(cfg, actions, s);
    actions, s := SubmitRejected(cfg, actions, s);
  }

  lemma SubmitRejected(cfg: Config, start: seq<Action>, s: State) returns (actions: seq<Action>, t: State)
    requires Run(cfg, start) == Some(s) && s.phase == Dispatching("m") && s.active.None?
    requires s.attempts == map["m" := AttemptUncertain] && s.accepted == map[] && s.inflight == {}
    ensures Run(cfg, actions) == Some(t) && t == s.(phase := Idle)
  {
    actions, t := Extend(cfg, start, s, Proceed);
    assert t == s.(phase := Submitting("m"), inflight := {Current(s, "m")});
    actions, t := Extend(cfg, actions, t, Reply(ResultRejected));
  }

  /** The next claim looks the submission up, finds it absent, and is refused when it marks the
      attempt: the only steps left are to give the message back or to crash. */
  lemma RetryIsRefused(cfg: Config) returns (actions: seq<Action>, s: State)
    requires cfg.project && (cfg.reconciles || cfg.idempotent)
    ensures Run(cfg, actions) == Some(s) && Stuck(s, "m") && s.phase == MarkAttempt("m")
    ensures Act(cfg, s, Proceed).None?
  {
    actions, s := RejectionGetsStuck(cfg);
    actions, s := Extend(cfg, actions, s, Claim("m"));
    actions, s := Extend(cfg, actions, s, Proceed);
    actions, s := Extend(cfg, actions, s, Looked(NotFound));
    actions, s := Extend(cfg, actions, s, Proceed);
  }

  /** Within one claim a message can be sent twice: a rejected steering call is looked up, found
      absent, waited for, and submitted. The run claims once, and neither gives the message back
      nor restarts after that. */
  lemma SteeredThenSubmitted(cfg: Config) returns (start: seq<Action>, sent: seq<Action>, s: State)
    requires cfg.project && cfg.steers && (cfg.reconciles || cfg.idempotent)
    ensures Run(cfg, start + sent) == Some(s) && s.phase == Submitting("m")
    ensures (forall a | a in start :: !a.Claim?) && sent != [] && sent[0] == Claim("m")
    ensures SteerReply(ResultRejected, false) in sent
    ensures forall i | 0 < i < |sent| :: !sent[i].Claim? && !sent[i].Restart? && !sent[i].Fail?
  {
    start, s := Extend(cfg, [], INITIAL, Restart("s"));
    start, s := Extend(cfg, start, s, SetActive(Some("op")));
    sent := [Claim("m"), Proceed, Proceed, Proceed] + [Proceed] +
            [Proceed, SteerReply(ResultRejected, false), Looked(NotFound)] + [SetActive(None), Proceed, Proceed];
    assert sent[6] == SteerReply(ResultRejected, false);
    s := SendSteerSubmit(cfg, start, s, sent);
  }

  lemma SendSteerSubmit(cfg: Config, start: seq<Action>, s: State, sent: seq<Action>) returns (t: State)
    requires cfg.project && cfg.steers && (cfg.reconciles || cfg.idempotent)
    requires Run(cfg, start) == Some(s) && s == INITIAL.(session := "s", active := Some("op"))
    requires sent == [Claim("m"), Proceed, Proceed, Proceed] + [Proceed] +
                     [Proceed, SteerReply(ResultRejected, false), Looked(NotFound)] + [SetActive(None), Proceed, Proceed]
    ensures Run(cfg, start + sent) == Some(t) && t.phase == Submitting("m")
  {
    var actions;
    actions, t := SendFirst(cfg, start, s);
    actions, t := SteerRejected(cfg, actions, t);
    actions, t := SubmitWaiting(cfg, actions, t);
    assert actions == start + sent;
  }

  lemma SteerRejected(cfg: Config, start: seq<Action>, s: State) returns (actions: seq<Action>, t: State)
    requires cfg.steers && (cfg.reconciles || cfg.idempotent) && Run(cfg, start) == Some(s)
    requires s.phase == Dispatching("m") && s.active == Some("op") && s.accepted == map[] && s.inflight == {}
    ensures Run(cfg, actions) == Some(t) && t.phase == Waiting("m", "op")
    ensures actions == start + [Proceed, SteerReply(ResultRejected, false), Looked(NotFound)]
  {
    actions, t := Extend(cfg, start, s, Proceed);
    assert t == s.(phase := Steering("m", "op"), inflight := {Current(s, "m")});
    actions, t := Extend(cfg, actions, t, SteerReply(ResultRejected, false));
    assert t == s.(phase := SteerLookup("m", "op", false));
    actions, t := NotFoundThenWait(cfg, actions, t);
  }

  lemma NotFoundThenWait(cfg: Config, start: seq<Action>, s: State) returns (actions: seq<Action>, t: State)
    requires (cfg.reconciles || cfg.idempotent) && Run(cfg, start) == Some(s)
    requires s.phase == SteerLookup("m", "op", false) && s.accepted == map[] && s.inflight == {}
    ensures Run(cfg, actions) == Some(t) && t.phase == Waiting("m", "op") && actions == start + [Looked(NotFound)]
  {
    actions, t := Extend(cfg, start, s, Looked(NotFound));
  }

  lemma SubmitWaiting(cfg: Config, start: seq<Action>, s: State) returns (actions: seq<Action>, t: State)
    requires Run(cfg, start) == Some(s) && s.phase == Waiting("m", "op")
    ensures Run(cfg, actions) == Some(t) && t.phase == Submitting("m")
    ensures actions == start + [SetActive(None), Proceed, Proceed]
  {
    actions, t := Extend(cfg, start, s, SetActive(None));
    assert t == s.(active := None);
    actions, t := Extend(cfg, actions, t, Proceed);
    assert t == s.(active := None, phase := Dispatching("m"));
    actions, t := Extend(cfg, actions, t, Proceed);
  }
}
