/**
 What the dispatcher gets done: an accepted answer is recorded and completed without another
 call, and a message can be completed from an idle state exactly under conditions that the
 ledger, the attempt row and the provider's abilities decide.
 */
module DeliveryProgress {
  import opened Options
  import opened Delivery
  import opened ProjectDelivery
  import opened ProjectRecovery

  // -------------------------------------------------------------------- what runs keep

  /** From the start of the dispatch loop until the dispatch is recorded. */
  predicate PastMark(phase: Phase) {
    phase.Dispatching? || phase.Submitting? || phase.Steering? || phase.SteerLookup? || phase.Waiting? ||
    phase.Recording?
  }

  /** A project message in the dispatch loop has its attempt marked uncertain. */
  predicate LoopMarked(s: State) {
    PastMark(s.phase) ==> s.phase.message in s.attempts && s.attempts[s.phase.message] == AttemptUncertain
  }

  /** A project message that was sent has an attempt row that left the pending state. */
  ghost predicate SentIsSpent(s: State) {
    forall k | Acceptances(s, k) >= 1 || k in s.inflight :: AttemptSpent(s, k.message)
  }

  ghost predicate Marked(s: State) {
    LoopMarked(s) && SentIsSpent(s)
  }

  lemma LoopStaysMarked(cfg: Config, s: State, a: Action)
    requires cfg.project && LoopMarked(s) && Act(cfg, s, a).Some?
    ensures LoopMarked(Act(cfg, s, a).value)
  {
  }

  lemma SpentStays(cfg: Config, s: State, a: Action, m: Message)
    requires Act(cfg, s, a).Some? && AttemptSpent(s, m)
    ensures AttemptSpent(Act(cfg, s, a).value, m)
  {
  }

  lemma SentStaysSpent(cfg: Config, s: State, a: Action, k: Key)
    requires cfg.project && Marked(s) && Act(cfg, s, a).Some?
    requires Acceptances(Act(cfg, s, a).value, k) >= 1 || k in Act(cfg, s, a).value.inflight
    ensures AttemptSpent(Act(cfg, s, a).value, k.message)
  {
    if a.Proceed? {
      AdvanceWrites(cfg, s);
      AdvanceCalls(cfg, s);
    }
    assert Acceptances(s, k) >= 1 || k in s.inflight || (s.phase.Dispatching? && k == Current(s, s.phase.message));
    SpentStays(cfg, s, a, k.message);
  }

  lemma {:induction false} RunsMarked(cfg: Config, actions: seq<Action>)
    requires cfg.project && Run(cfg, actions).Some?
    ensures Marked(Run(cfg, actions).value)
  {
    if actions != [] {
      var n := |actions| - 1;
      var s, a := Run(cfg, actions[..n]).value, actions[n];
      RunsMarked(cfg, actions[..n]);
      LoopStaysMarked(cfg, s, a);
      forall k | Acceptances(Act(cfg, s, a).value, k) >= 1 || k in Act(cfg, s, a).value.inflight
        ensures AttemptSpent(Act(cfg, s, a).value, k.message)
      {
        SentStaysSpent(cfg, s, a, k);
      }
    }
  }

  /** A recorded dispatch has its attempt row accepted. */
  predicate RecordedAccepted(s: State, m: Message) {
    m in s.dispatched ==> m in s.attempts && s.attempts[m] == AttemptAccepted
  }

  lemma AdvanceRecordsAccepted(cfg: Config, s: State, m: Message)
    requires RecordedAccepted(s, m) && Advance(cfg, s).Some?
    ensures RecordedAccepted(Advance(cfg, s).value, m)
  {
  }

  lemma ActRecordsAccepted(cfg: Config, s: State, a: Action, m: Message)
    requires RecordedAccepted(s, m) && Act(cfg, s, a).Some?
    ensures RecordedAccepted(Act(cfg, s, a).value, m)
  {
    if a.Proceed? {
      AdvanceRecordsAccepted(cfg, s, m);
    }
  }

  lemma {:induction false} RunsRecordAccepted(cfg: Config, actions: seq<Action>, m: Message)
    requires Run(cfg, actions).Some?
    ensures RecordedAccepted(Run(cfg, actions).value, m)
  {
    if actions != [] {
      var n := |actions| - 1;
      RunsRecordAccepted(cfg, actions[..n], m);
      ActRecordsAccepted(cfg, Run(cfg, actions[..n]).value, actions[n], m);
    }
  }

  /** In every run, the store has recorded a project dispatch exactly when its attempt row says
      accepted. */
  lemma RecordedMeansAccepted(cfg: Config, actions: seq<Action>, m: Message)
    requires cfg.project && Run(cfg, actions).Some?
    ensures var s := Run(cfg, actions).value;
            m in s.dispatched <==> m in s.attempts && s.attempts[m] == AttemptAccepted
  {
    RunsFiled(cfg, actions);
    RunsRecordAccepted(cfg, actions, m);
  }

  // --------------------------------------------------------------- finishing without a call

  /** The message is done: completed, accepted in the ledger of the session, recorded if it is
      a project's, and the dispatcher is idle. */
  predicate Done(cfg: Config, t: State, k: Key) {
    && t.phase == Idle && t.session == k.session
    && k.message in t.completed && LedgerOf(t, k) == Accepted
    && (cfg.project ==> k.message in t.dispatched)
  }

  /** The store can record the dispatch. */
  predicate Recordable(cfg: Config, s: State, m: Message) {
    cfg.project ==> (m in s.attempts && s.attempts[m] == AttemptUncertain) || m in s.dispatched
  }

  lemma RecordCompletes(cfg: Config, prefix: seq<Action>, s: State, m: Message) returns (t: State)
    requires Run(cfg, prefix) == Some(s) && (s.phase == Recording(m) || s.phase == RecordRecovered(m))
    requires Recordable(cfg, s, m)
    ensures Run(cfg, prefix + [Proceed, Proceed, Proceed]) == Some(t) && Done(cfg, t, Current(s, m))
    ensures t.active == s.active && t.accepted == s.accepted && t.inflight == s.inflight
    ensures t.completed == s.completed + {m} && t.ledger == s.ledger[Current(s, m) := Accepted]
  {
    var u := RecordedGains(cfg, s, m);
    var one, v := Extend(cfg, prefix, s, Proceed);
    t := MarkCompletes(cfg, one, u, m);
    assert prefix + [Proceed, Proceed, Proceed] == one + [Proceed, Proceed];
  }

  lemma RecordedGains(cfg: Config, s: State, m: Message) returns (t: State)
    requires (s.phase == Recording(m) || s.phase == RecordRecovered(m)) && Recordable(cfg, s, m)
    ensures Act(cfg, s, Proceed) == Some(t) && t.phase == MarkAccepted(m) && (cfg.project ==> m in t.dispatched)
    ensures t == s.(phase := t.phase, dispatched := t.dispatched, attempts := t.attempts)
  {
    t := Recorded(cfg, s, m).value.(phase := MarkAccepted(m));
  }

  lemma MarkCompletes(cfg: Config, prefix: seq<Action>, s: State, m: Message) returns (t: State)
    requires Run(cfg, prefix) == Some(s) && s.phase == MarkAccepted(m)
    ensures Run(cfg, prefix + [Proceed, Proceed]) == Some(t)
    ensures t == s.(phase := Idle, ledger := s.ledger[Current(s, m) := Accepted], completed := s.completed + {m})
  {
    var one, u := Extend(cfg, prefix, s, Proceed);
    assert u == s.(phase := Completing(m), ledger := s.ledger[Current(s, m) := Accepted]);
    var two;
    two, t := Extend(cfg, one, u, Proceed);
    assert two == prefix + [Proceed, Proceed];
  }

  /** In every run that is waiting for the answer to a submission or to a steering call: once
      the provider has accepted the message, an accepting answer without an error is possible and
      three more steps, none of them a call or a lookup, complete the message. A submission's
      operation becomes the active one. */
  lemma AcceptedAnswerCompletes(cfg: Config, prefix: seq<Action>, operation: Operation)
      returns (answer: Action, t: State)
    requires Run(cfg, prefix).Some?
    requires var s := Run(cfg, prefix).value;
             (s.phase.Submitting? || s.phase.Steering?) && Acceptances(s, Current(s, s.phase.message)) >= 1
    ensures var s := Run(cfg, prefix).value;
            && answer == (if s.phase.Submitting? then Reply(ResultAccepted(operation))
                          else SteerReply(ResultAccepted(operation), false))
            && Run(cfg, prefix + [answer] + [Proceed, Proceed, Proceed]) == Some(t)
            && Done(cfg, t, Current(s, s.phase.message))
            && t.active == (if s.phase.Submitting? then Some(operation) else s.active)
            && t.accepted == s.accepted && t.inflight == s.inflight - {Current(s, s.phase.message)}
  {
    var s := Run(cfg, prefix).value;
    if cfg.project {
      RunsMarked(cfg, prefix);
    }
    var accepted := ResultAccepted(operation);
    answer := if s.phase.Submitting? then Reply(accepted) else SteerReply(accepted, false);
    var more, u := Extend(cfg, prefix, s, answer);
    t := RecordCompletes(cfg, more, u, s.phase.message);
  }

  /** Likewise for a lookup that finds the submission, on recovery or after a steering call. */
  lemma FoundCompletes(cfg: Config, prefix: seq<Action>, operation: Operation) returns (t: State)
    requires Run(cfg, prefix).Some? && cfg.reconciles
    requires var s := Run(cfg, prefix).value;
             (s.phase.Recovering? || s.phase.SteerLookup?) && Acceptances(s, Current(s, s.phase.message)) >= 1
    ensures var s := Run(cfg, prefix).value;
            && Run(cfg, prefix + [Looked(Found(operation))] + [Proceed, Proceed, Proceed]) == Some(t)
            && Done(cfg, t, Current(s, s.phase.message))
            && t.active == Some(operation) && t.accepted == s.accepted && t.inflight == s.inflight
  {
    var s := Run(cfg, prefix).value;
    var m := s.phase.message;
    if cfg.project {
      RunsMarked(cfg, prefix);
      RunsFiled(cfg, prefix);
      assert AttemptSpent(s, m);
    }
    var more, u := Extend(cfg, prefix, s, Looked(Found(operation)));
    assert u.attempts == s.attempts && u.dispatched == s.dispatched;
    t := RecordCompletes(cfg, more, u, m);
  }

  /** A claimed message that the store has recorded, or the ledger holds as accepted, is
      completed without any call. */
  lemma KnownAcceptanceCompletes(cfg: Config, prefix: seq<Action>, m: Message) returns (rest: seq<Action>, t: State)
    requires Run(cfg, prefix).Some?
    requires Run(cfg, prefix).value.phase.Claimed? && Run(cfg, prefix).value.phase.message == m
    requires var s := Run(cfg, prefix).value; s.phase.dispatched || LedgerOf(s, Current(s, m)) == Accepted
    ensures rest == [Proceed, Proceed] || rest == [Proceed, Proceed, Proceed]
    ensures Run(cfg, prefix + rest) == Some(t) && t.phase == Idle && m in t.completed
    ensures t.ledger == Run(cfg, prefix).value.ledger && t.inflight == Run(cfg, prefix).value.inflight
  {
    var s := Run(cfg, prefix).value;
    assert prefix + [] == prefix;
    if cfg.project {
      RunsFiled(cfg, prefix);
    }
    rest, t := Then(cfg, prefix, [], s, Proceed);
    if !s.phase.dispatched {
      assert t == s.(phase := RecordAccepted(m));
      rest, t := RecordKnown(cfg, prefix, rest, t, m);
    }
    rest, t := CompleteKnown(cfg, prefix, rest, t, m);
  }

  lemma RecordKnown(cfg: Config, prefix: seq<Action>, start: seq<Action>, s: State, m: Message)
      returns (rest: seq<Action>, t: State)
    requires Run(cfg, prefix + start) == Some(s) && s.phase == RecordAccepted(m) && Recordable(cfg, s, m)
    ensures rest == start + [Proceed] && Run(cfg, prefix + rest) == Some(t) && t.phase == Completing(m)
    ensures t.ledger == s.ledger && t.inflight == s.inflight
  {
    rest, t := Then(cfg, prefix, start, s, Proceed);
  }

  lemma CompleteKnown(cfg: Config, prefix: seq<Action>, start: seq<Action>, s: State, m: Message)
      returns (rest: seq<Action>, t: State)
    requires Run(cfg, prefix + start) == Some(s) && s.phase == Completing(m)
    ensures rest == start + [Proceed] && Run(cfg, prefix + rest) == Some(t)
    ensures t == s.(phase := Idle, completed := s.completed + {m})
  {
    rest, t := Then(cfg, prefix, start, s, Proceed);
  }

  // ------------------------------------------------------------------------- what calls need

  /** In every run, a call starts only in the dispatch loop of the session, with the ledger
      already uncertain and, for a project message, the attempt already marked: as a submission
      when no operation is active, and into the active operation only when the provider steers. */
  lemma CallsFollowTheBooks(cfg: Config, actions: seq<Action>, a: Action, k: Key)
    requires Run(cfg, actions + [a]).Some? && Run(cfg, actions).Some?
    requires k in Run(cfg, actions + [a]).value.inflight && k !in Run(cfg, actions).value.inflight
    ensures var s, t := Run(cfg, actions).value, Run(cfg, actions + [a]).value;
            && a == Proceed && s.phase == Dispatching(k.message) && k.session == s.session
            && LedgerOf(s, k) == Uncertain
            && (cfg.project ==> k.message in s.attempts && s.attempts[k.message] == AttemptUncertain)
            && (s.active.None? ==> t.phase == Submitting(k.message))
            && (s.active.Some? ==> cfg.steers && t.phase == Steering(k.message, s.active.value))
  {
    assert (actions + [a])[..|actions|] == actions;
    RunsFit(cfg, actions);
    if cfg.project {
      RunsMarked(cfg, actions);
    }
    CallStarts(cfg, Run(cfg, actions).value, a, k);
  }

  lemma CallStarts(cfg: Config, s: State, a: Action, k: Key)
    requires Act(cfg, s, a).Some? && k in Act(cfg, s, a).value.inflight && k !in s.inflight
    ensures a == Proceed && s.phase == Dispatching(k.message) && k.session == s.session
    ensures s.active.None? ==> Act(cfg, s, a).value.phase == Submitting(k.message)
    ensures s.active.Some? ==> cfg.steers && Act(cfg, s, a).value.phase == Steering(k.message, s.active.value)
  {
    if a.Proceed? {
      AdvanceCalls(cfg, s);
    }
  }

  /** An answer ends the call it answers. A submission that was not accepted is given back; a
      steering call that was not accepted without an error is looked up. */
  lemma AnswersSettle(cfg: Config, actions: seq<Action>, a: Action)
    requires Run(cfg, actions + [a]).Some? && Run(cfg, actions).Some? && (a.Reply? || a.SteerReply?)
    ensures var s, t := Run(cfg, actions).value, Run(cfg, actions + [a]).value;
            && (s.phase.Submitting? || s.phase.Steering?)
            && t.inflight == s.inflight - {Current(s, s.phase.message)}
            && t.ledger == s.ledger && t.completed == s.completed && t.dispatched == s.dispatched
            && (a.Reply? && !a.result.ResultAccepted? ==> t.phase == Idle && t.active == s.active)
            && (a.SteerReply? && (a.failed || !a.result.ResultAccepted?) ==>
                  t.phase == SteerLookup(s.phase.message, s.phase.operation, a.failed))
  {
    assert (actions + [a])[..|actions|] == actions;
  }

  /** A lookup writes nothing. What it finds was accepted, and is recorded next. What it
      proves absent is sent on recovery, and waited with after a steering call. When it fails, a
      recovery gives the message back; so does a steering call that had failed too, while one
      that had not waits. */
  lemma LookupsSettle(cfg: Config, actions: seq<Action>, l: Lookup)
    requires Run(cfg, actions + [Looked(l)]).Some? && Run(cfg, actions).Some?
    ensures var s, t := Run(cfg, actions).value, Run(cfg, actions + [Looked(l)]).value;
            && (s.phase.Recovering? || s.phase.SteerLookup?)
            && t.ledger == s.ledger && t.inflight == s.inflight
            && t.completed == s.completed && t.dispatched == s.dispatched
            && (l.Found? ==>
                  && cfg.reconciles && Acceptances(s, Current(s, s.phase.message)) >= 1
                  && t.active == Some(l.operation)
                  && t.phase == if s.phase.Recovering? then RecordRecovered(s.phase.message) else Recording(s.phase.message))
            && (!l.Found? ==> t.active == s.active)
            && (s.phase.Recovering? && !l.Found? ==>
                  t.phase == if l.NotFound? then MarkUncertain(s.phase.message) else Idle)
            && (s.phase.SteerLookup? && !l.Found? ==>
                  t.phase == if l.LookupFailed? && s.phase.failed then Idle
                             else Waiting(s.phase.message, s.phase.operation))
  {
    assert (actions + [Looked(l)])[..|actions|] == actions;
  }

  /** A message that waits for an operation to end goes on only when that operation is no
      longer the active one, and then back to the dispatch loop. */
  lemma WaitsForChange(cfg: Config, actions: seq<Action>, a: Action)
    requires Run(cfg, actions + [a]).Some? && Run(cfg, actions).Some? && Run(cfg, actions).value.phase.Waiting?
    requires Run(cfg, actions + [a]).value.phase != Run(cfg, actions).value.phase && !a.Restart? && !a.Fail?
    ensures var s, t := Run(cfg, actions).value, Run(cfg, actions + [a]).value;
            a == Proceed && s.active != Some(s.phase.operation) && t == s.(phase := Dispatching(s.phase.message))
  {
    assert (actions + [a])[..|actions|] == actions;
  }

  /** A steering call that was rejected is not lost: when the active operation ends, the
      message is submitted within the same claim. */
  lemma RejectedSteeringIsSubmitted(cfg: Config, prefix: seq<Action>) returns (rest: seq<Action>, t: State)
    requires Run(cfg, prefix).Some? && Run(cfg, prefix).value.phase.Steering?
    requires var s := Run(cfg, prefix).value; Acceptances(s, Current(s, s.phase.message)) == 0
    ensures rest == [SteerReply(ResultRejected, false),
                     Looked(if cfg.reconciles || cfg.idempotent then NotFound else LookupFailed),
                     SetActive(None), Proceed, Proceed]
    ensures var s := Run(cfg, prefix).value;
            && Run(cfg, prefix + rest) == Some(t)
            && t.phase == Submitting(s.phase.message) && Current(t, s.phase.message) in t.inflight
            && t.ledger == s.ledger
  {
    var s := Run(cfg, prefix).value;
    var m, op := s.phase.message, s.phase.operation;
    assert prefix + [] == prefix;
    rest, t := Then(cfg, prefix, [], s, SteerReply(ResultRejected, false));
    assert t == s.(inflight := s.inflight - {Current(s, m)}, phase := SteerLookup(m, op, false));
    rest, t := Then(cfg, prefix, rest, t, Looked(if cfg.reconciles || cfg.idempotent then NotFound else LookupFailed));
    assert t == s.(inflight := s.inflight - {Current(s, m)}, phase := Waiting(m, op));
    rest, t := EndAndSubmit(cfg, prefix, rest, t);
  }

  lemma EndAndSubmit(cfg: Config, prefix: seq<Action>, start: seq<Action>, s: State)
      returns (rest: seq<Action>, t: State)
    requires Run(cfg, prefix + start) == Some(s) && s.phase.Waiting?
    ensures rest == start + [SetActive(None), Proceed, Proceed] && Run(cfg, prefix + rest) == Some(t)
    ensures t == s.(active := None, phase := Submitting(s.phase.message),
                    inflight := s.inflight + {Current(s, s.phase.message)})
  {
    rest, t := Then(cfg, prefix, start, s, SetActive(None));
    rest, t := Then(cfg, prefix, rest, t, Proceed);
    rest, t := Then(cfg, prefix, rest, t, Proceed);
  }

  /** The dispatcher never holds a completed message. */
  predicate HoldsOpen(s: State) {
    !s.phase.Idle? ==> s.phase.message !in s.completed
  }

  lemma ActHoldsOpen(cfg: Config, s: State, a: Action)
    requires HoldsOpen(s) && Act(cfg, s, a).Some?
    ensures HoldsOpen(Act(cfg, s, a).value) && s.completed <= Act(cfg, s, a).value.completed
  {
  }

  lemma {:induction false} RunsHoldOpen(cfg: Config, actions: seq<Action>)
    requires Run(cfg, actions).Some?
    ensures HoldsOpen(Run(cfg, actions).value)
  {
    if actions != [] {
      var n := |actions| - 1;
      RunsHoldOpen(cfg, actions[..n]);
      ActHoldsOpen(cfg, Run(cfg, actions[..n]).value, actions[n]);
    }
  }

  /** A completed message stays completed and is never claimed or sent again: in every
      continuation the dispatcher holds other messages, and no call for it starts. */
  lemma {:induction false} CompletedIsFinal(cfg: Config, prefix: seq<Action>, rest: seq<Action>, k: Key)
    requires Run(cfg, prefix).Some? && Run(cfg, prefix + rest).Some? && k.message in Run(cfg, prefix).value.completed
    ensures var s, t := Run(cfg, prefix).value, Run(cfg, prefix + rest).value;
            && k.message in t.completed && (!t.phase.Idle? ==> t.phase.message != k.message)
            && (k in t.inflight ==> k in s.inflight)
    decreases |rest|
  {
    RunsHoldOpen(cfg, prefix + rest);
    if rest == [] {
      assert prefix + rest == prefix;
    } else {
      var n := |rest| - 1;
      assert (prefix + rest)[..|prefix + rest| - 1] == prefix + rest[..n];
      CompletedIsFinal(cfg, prefix, rest[..n], k);
      var u := Run(cfg, prefix + rest[..n]).value;
      RunsHoldOpen(cfg, prefix + rest[..n]);
      ActHoldsOpen(cfg, u, rest[n]);
      if k in Act(cfg, u, rest[n]).value.inflight && k !in u.inflight {
        CallStarts(cfg, u, rest[n], k);
      }
    }
  }

  /** Whenever the dispatcher gives a message back, no pending attempt row of it is left. */
  lemma GivenBackIsForgotten(cfg: Config, actions: seq<Action>, a: Action)
    requires Run(cfg, actions + [a]).Some? && Run(cfg, actions).Some? && !a.Restart?
    requires !Run(cfg, actions).value.phase.Idle? && Run(cfg, actions + [a]).value.phase.Idle?
    requires !Run(cfg, actions).value.phase.Completing?
    ensures var s, t := Run(cfg, actions).value, Run(cfg, actions + [a]).value;
            s.phase.message in t.attempts ==> AttemptSpent(s, s.phase.message) && AttemptSpent(t, s.phase.message)
  {
    assert (actions + [a])[..|actions|] == actions;
    GivesBack(cfg, Run(cfg, actions).value, a);
  }

  lemma GivesBack(cfg: Config, s: State, a: Action)
    requires Act(cfg, s, a).Some? && !a.Restart? && !s.phase.Idle? && !s.phase.Completing?
    requires Act(cfg, s, a).value.phase.Idle?
    ensures !a.Proceed?
    ensures s.phase.message in Act(cfg, s, a).value.attempts ==>
              AttemptSpent(s, s.phase.message) && AttemptSpent(Act(cfg, s, a).value, s.phase.message)
  {
  }
}
