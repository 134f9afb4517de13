/**
 Delivering HQ messages to a harness session: the write-ahead ledger, submission, steering,
 reconciliation, and recovery after a crash, as a state machine over single steps. Ledger,
 store and provider survive a crash; everything else does not.
 */
module Delivery {
  import opened Options

  type Session = string
  type Message = string
  type Operation = string

  /** A stable submission: one message in one session. */
  datatype Key = Key(session: Session, message: Message)

  datatype LedgerState = Unknown | Pending | Uncertain | Accepted

  function Rank(state: LedgerState): nat {
    match state
    case Unknown => 0
    case Pending => 1
    case Uncertain => 2
    case Accepted => 3
  }

  /** What the dispatcher serves and what the provider offers. `silentSteering` says that an
      uncertain steering result may come without an error. */
  datatype Config = Config(
    project: bool, reconciles: bool, idempotent: bool, steers: bool, silentSteering: bool)

  /** Where the dispatcher stands with the message it has claimed. */
  datatype Phase =
    | Idle
    | Claimed(message: Message, dispatched: bool)
    | Recovering(message: Message)
    | RecordRecovered(message: Message)
    | MarkPending(message: Message)
    | MarkUncertain(message: Message)
    | MarkAttempt(message: Message)
    | Dispatching(message: Message)
    | Submitting(message: Message)
    | Steering(message: Message, operation: Operation)
    | SteerLookup(message: Message, operation: Operation, failed: bool)
    | Waiting(message: Message, operation: Operation)
    | Recording(message: Message)
    | MarkAccepted(message: Message)
    | RecordAccepted(message: Message)
    | Completing(message: Message)

  datatype Attempt = AttemptPending | AttemptUncertain | AttemptAccepted

  datatype State = State(
    // durable: the ledger and the store
    ledger: map<Key, LedgerState>, completed: set<Message>, dispatched: set<Message>, attempts: map<Message, Attempt>,
    // the provider: how often it accepted a submission, and calls whose effect is still open
    accepted: map<Key, nat>, inflight: set<Key>,
    // lost on a crash
    session: Session, phase: Phase, active: Option<Operation>)

  const INITIAL: State := State(map[], {}, {}, map[], map[], {}, "", Idle, None)

  datatype Result = ResultRejected | ResultAccepted(operation: Operation) | ResultUncertain

  datatype Lookup = Found(operation: Operation) | NotFound | LookupFailed

  datatype Action =
    | Restart(session: Session)
    | SetActive(operation: Option<Operation>)
    | Land(key: Key)
    | Claim(message: Message)
    | Proceed
    | Reply(result: Result)
    | SteerReply(result: Result, failed: bool)
    | Looked(lookup: Lookup)
    | Fail

  function LedgerOf(s: State, k: Key): LedgerState {
    if k in s.ledger then s.ledger[k] else Unknown
  }

  function Acceptances(s: State, k: Key): nat {
    if k in s.accepted then s.accepted[k] else 0
  }

  function Current(s: State, m: Message): Key {
    Key(s.session, m)
  }

  /** Give the message back; a project attempt that was never sent is forgotten. */
  function Released(s: State, m: Message): State {
    s.(phase := Idle,
       attempts := if m in s.attempts && s.attempts[m] == AttemptPending then s.attempts - {m} else s.attempts)
  }

  // ------------------------------------------------------------------- provider's promises

  /** Accepted proves presence, rejected proves absence; an uncertain result proves nothing. */
  predicate ResultHonest(s: State, k: Key, r: Result) {
    match r
    case ResultAccepted(_) => Acceptances(s, k) >= 1
    case ResultRejected => Acceptances(s, k) == 0
    case ResultUncertain => true
  }

  /** Found proves presence; not found proves that nothing is or will become accepted. */
  predicate LookupHonest(s: State, k: Key, l: Lookup) {
    match l
    case Found(_) => Acceptances(s, k) >= 1
    case NotFound => Acceptances(s, k) == 0 && k !in s.inflight
    case LookupFailed => true
  }

  /** A session without lookup answers "not found" when submission is idempotent, and fails
      otherwise. */
  predicate LookupPossible(cfg: Config, s: State, k: Key, l: Lookup) {
    if cfg.reconciles then LookupHonest(s, k, l)
    else if cfg.idempotent then l == NotFound
    else l == LookupFailed
  }

  // ------------------------------------------------------------------------------- steps

  /** The store records a project dispatch only from an uncertain attempt, or finds it recorded. */
  function Recorded(cfg: Config, s: State, m: Message): Option<State> {
    if !cfg.project then Some(s)
    else if m in s.attempts && s.attempts[m] == AttemptUncertain then
      Some(s.(dispatched := s.dispatched + {m}, attempts := s.attempts[m := AttemptAccepted]))
    else if m in s.dispatched then Some(s)
    else None
  }

  function WithPhase(s: Option<State>, phase: Phase): Option<State> {
    if s.None? then None else Some(s.value.(phase := phase))
  }

  /** The next step of the delivery code where it does not depend on an answer. */
  function Advance(cfg: Config, s: State): Option<State> {
    match s.phase
    case Claimed(m, dispatched) =>
      if dispatched then Some(s.(phase := Completing(m)))
      else
        (match LedgerOf(s, Current(s, m))
         case Accepted => Some(s.(phase := RecordAccepted(m)))
         case Uncertain => Some(s.(phase := Recovering(m)))
         case Pending => Some(s.(phase := MarkUncertain(m)))
         case Unknown => Some(s.(phase := MarkPending(m))))
    case MarkPending(m) => Some(s.(ledger := s.ledger[Current(s, m) := Pending], phase := MarkUncertain(m)))
    case MarkUncertain(m) =>
      Some(s.(ledger := s.ledger[Current(s, m) := Uncertain],
              phase := if cfg.project then MarkAttempt(m) else Dispatching(m)))
    case MarkAttempt(m) =>
      if m in s.attempts && s.attempts[m] == AttemptPending
      then Some(s.(attempts := s.attempts[m := AttemptUncertain], phase := Dispatching(m))) else None
    case Dispatching(m) =>
      if s.active.None? then Some(s.(inflight := s.inflight + {Current(s, m)}, phase := Submitting(m)))
      else if cfg.steers then
        Some(s.(inflight := s.inflight + {Current(s, m)}, phase := Steering(m, s.active.value)))
      else Some(s.(phase := Waiting(m, s.active.value)))
    case Waiting(m, operation) =>
      if s.active != Some(operation) then Some(s.(phase := Dispatching(m))) else None
    case RecordRecovered(m) => WithPhase(Recorded(cfg, s, m), MarkAccepted(m))
    case Recording(m) => WithPhase(Recorded(cfg, s, m), MarkAccepted(m))
    case RecordAccepted(m) => WithPhase(Recorded(cfg, s, m), Completing(m))
    case MarkAccepted(m) => Some(s.(ledger := s.ledger[Current(s, m) := Accepted], phase := Completing(m)))
    case Completing(m) => Some(s.(completed := s.completed + {m}, phase := Idle))
    case _ => None
  }

  function Looking(s: State, l: Lookup): Option<State> {
    match s.phase
    case Recovering(m) =>
      (match l
       case Found(operation) => Some(s.(active := Some(operation), phase := RecordRecovered(m)))
       case NotFound => Some(s.(phase := MarkUncertain(m)))
       case LookupFailed => Some(Released(s, m)))
    case SteerLookup(m, operation, failed) =>
      (match l
       case Found(found) => Some(s.(active := Some(found), phase := Recording(m)))
       case NotFound => Some(s.(phase := Waiting(m, operation)))
       case LookupFailed => Some(if failed then Released(s, m) else s.(phase := Waiting(m, operation))))
    case _ => None
  }

  /** One step of the whole system; None when the action is not possible in the state. */
  function Act(cfg: Config, s: State, a: Action): Option<State> {
    match a
    case Restart(session) => Some(s.(session := session, phase := Idle, active := None))
    case SetActive(operation) => Some(s.(active := operation))
    case Land(k) =>
      if k !in s.inflight then None
      else
        Some(s.(inflight := s.inflight - {k},
                accepted := s.accepted[k := if cfg.idempotent then 1 else Acceptances(s, k) + 1]))
    case Claim(m) =>
      if s.phase.Idle? && m !in s.completed then
        Some(s.(phase := Claimed(m, cfg.project && m in s.dispatched),
                attempts := if cfg.project && m !in s.attempts then s.attempts[m := AttemptPending] else s.attempts))
      else None
    case Proceed => Advance(cfg, s)
    case Reply(r) =>
      if s.phase.Submitting? && ResultHonest(s, Current(s, s.phase.message), r) then
        var m := s.phase.message;
        var returned := s.(inflight := s.inflight - {Current(s, m)});
        if r.ResultAccepted? then Some(returned.(active := Some(r.operation), phase := Recording(m)))
        else Some(Released(returned, m))
      else None
    case SteerReply(r, failed) =>
      if s.phase.Steering? && ResultHonest(s, Current(s, s.phase.message), r) &&
         (r.ResultUncertain? && !failed ==> cfg.silentSteering)
      then
        var m := s.phase.message;
        var returned := s.(inflight := s.inflight - {Current(s, m)});
        if r.ResultAccepted? && !failed then Some(returned.(phase := Recording(m)))
        else Some(returned.(phase := SteerLookup(m, s.phase.operation, failed)))
      else None
    case Looked(l) =>
      if (s.phase.Recovering? || s.phase.SteerLookup?) && LookupPossible(cfg, s, Current(s, s.phase.message), l)
      then Looking(s, l) else None
    case Fail =>
      if s.phase.Idle? || s.phase.Submitting? || s.phase.Steering? then None
      else Some(Released(s, s.phase.message))
  }

  /** The state after a run, if every action was possible. */
  function Run(cfg: Config, actions: seq<Action>): Option<State> {
    if actions == [] then Some(INITIAL)
    else
      var before := Run(cfg, actions[..|actions| - 1]);
      if before.None? then None else Act(cfg, before.value, actions[|actions| - 1])
  }

  // -------------------------------------------------------------------------- invariant

  /** The provider's answers, together with how the dispatcher treats them, rule out a blind
      second submission. */
  predicate SafeProvider(cfg: Config) {
    cfg.idempotent || !cfg.steers || !cfg.silentSteering
  }

  function Pending01(s: State, k: Key): nat {
    if k in s.inflight then 1 else 0
  }

  /** Nothing of this submission is accepted or can still become accepted. */
  ghost predicate Absent(s: State, k: Key) {
    Acceptances(s, k) == 0 && k !in s.inflight
  }

  ghost predicate SomewhereAccepted(s: State, m: Message) {
    exists session :: Acceptances(s, Key(session, m)) >= 1
  }

  /** What the provider's book and the ledger say of every submission. */
  ghost predicate KeyInvariant(cfg: Config, s: State, k: Key) {
    && Acceptances(s, k) <= 1
    && (!cfg.idempotent ==> Acceptances(s, k) + Pending01(s, k) <= 1)
    && (Acceptances(s, k) >= 1 || k in s.inflight ==> Rank(LedgerOf(s, k)) >= Rank(Uncertain))
    && (LedgerOf(s, k) == Accepted ==> Acceptances(s, k) >= 1)
  }

  /** What each phase relies on. */
  ghost predicate PhaseInvariant(cfg: Config, s: State) {
    match s.phase
    case Idle => true
    case Claimed(m, dispatched) => dispatched ==> SomewhereAccepted(s, m)
    case Recovering(m) => LedgerOf(s, Current(s, m)) == Uncertain
    case MarkPending(m) => LedgerOf(s, Current(s, m)) == Unknown
    case MarkUncertain(m) =>
      && (LedgerOf(s, Current(s, m)) == Pending || LedgerOf(s, Current(s, m)) == Uncertain)
      && (!cfg.idempotent ==> Absent(s, Current(s, m)))
    case MarkAttempt(m) => LedgerOf(s, Current(s, m)) == Uncertain && (!cfg.idempotent ==> Absent(s, Current(s, m)))
    case Dispatching(m) => LedgerOf(s, Current(s, m)) == Uncertain && (!cfg.idempotent ==> Absent(s, Current(s, m)))
    case Waiting(m, _) => LedgerOf(s, Current(s, m)) == Uncertain && (!cfg.idempotent ==> Absent(s, Current(s, m)))
    case Submitting(m) => LedgerOf(s, Current(s, m)) == Uncertain
    case Steering(m, _) => LedgerOf(s, Current(s, m)) == Uncertain && cfg.steers
    case SteerLookup(m, _, failed) =>
      && LedgerOf(s, Current(s, m)) == Uncertain && cfg.steers
      && (!cfg.idempotent ==> Current(s, m) !in s.inflight)
      && (!cfg.idempotent && !failed && !cfg.silentSteering ==> Absent(s, Current(s, m)))
    case RecordRecovered(m) => LedgerOf(s, Current(s, m)) == Uncertain && Acceptances(s, Current(s, m)) >= 1
    case Recording(m) => LedgerOf(s, Current(s, m)) == Uncertain && Acceptances(s, Current(s, m)) >= 1
    case MarkAccepted(m) => LedgerOf(s, Current(s, m)) == Uncertain && Acceptances(s, Current(s, m)) >= 1
    case RecordAccepted(m) => Acceptances(s, Current(s, m)) >= 1
    case Completing(m) => SomewhereAccepted(s, m)
  }

  ghost predicate StoreInvariant(s: State) {
    forall m | m in s.completed || m in s.dispatched :: SomewhereAccepted(s, m)
  }

  ghost predicate Invariant(cfg: Config, s: State) {
    (forall k :: KeyInvariant(cfg, s, k)) && PhaseInvariant(cfg, s) && StoreInvariant(s)
  }

  /** Acceptances are never taken back. */
  lemma AcceptedStays(s: State, t: State, m: Message)
    requires SomewhereAccepted(s, m)
    requires forall k :: Acceptances(s, k) <= Acceptances(t, k)
    ensures SomewhereAccepted(t, m)
  {
    var session :| Acceptances(s, Key(session, m)) >= 1;
    assert Acceptances(t, Key(session, m)) >= 1;
  }

  lemma AcceptancesGrow(cfg: Config, s: State, a: Action)
    requires Act(cfg, s, a).Some? && (cfg.idempotent ==> forall k :: Acceptances(s, k) <= 1)
    ensures forall k :: Acceptances(s, k) <= Acceptances(Act(cfg, s, a).value, k)
  {
  }

  /** The store gains a message only when the step at hand completes it or records its dispatch. */
  lemma StoreGains(cfg: Config, s: State, a: Action, m: Message)
    requires Act(cfg, s, a).Some? && m !in s.completed && m !in s.dispatched
    requires m in Act(cfg, s, a).value.completed || m in Act(cfg, s, a).value.dispatched
    ensures s.phase.Completing? || s.phase.RecordRecovered? || s.phase.Recording? || s.phase.RecordAccepted?
    ensures s.phase.message == m
  {
  }

  lemma StoreKept(cfg: Config, s: State, a: Action)
    requires Invariant(cfg, s) && Act(cfg, s, a).Some?
    ensures StoreInvariant(Act(cfg, s, a).value)
  {
    var t := Act(cfg, s, a).value;
    assert forall k :: KeyInvariant(cfg, s, k) ==> Acceptances(s, k) <= 1;
    AcceptancesGrow(cfg, s, a);
    forall m | m in t.completed || m in t.dispatched
      ensures SomewhereAccepted(t, m)
    {
      if m !in s.completed && m !in s.dispatched {
        StoreGains(cfg, s, a, m);
        assert s.phase.Completing? || Acceptances(s, Current(s, m)) >= 1;
      }
      AcceptedStays(s, t, m);
    }
  }

  /** The ledger once the step at hand is done. */
  function LedgerAfter(s: State): map<Key, LedgerState> {
    if s.phase.MarkPending? then s.ledger[Current(s, s.phase.message) := Pending]
    else if s.phase.MarkUncertain? then s.ledger[Current(s, s.phase.message) := Uncertain]
    else if s.phase.MarkAccepted? then s.ledger[Current(s, s.phase.message) := Accepted]
    else s.ledger
  }

  lemma AdvanceWrites(cfg: Config, s: State)
    requires Advance(cfg, s).Some?
    ensures Advance(cfg, s).value.accepted == s.accepted && Advance(cfg, s).value.session == s.session
    ensures Advance(cfg, s).value.ledger == LedgerAfter(s)
  {
    match s.phase
    case Claimed(m, _) =>
      assert Advance(cfg, s).value == s.(phase := Advance(cfg, s).value.phase);
    case RecordRecovered(m) => RecordedKeeps(cfg, s, m);
    case Recording(m) => RecordedKeeps(cfg, s, m);
    case RecordAccepted(m) => RecordedKeeps(cfg, s, m);
    case _ =>
  }

  lemma RecordedKeeps(cfg: Config, s: State, m: Message)
    requires Recorded(cfg, s, m).Some?
    ensures Recorded(cfg, s, m).value.accepted == s.accepted && Recorded(cfg, s, m).value.session == s.session
    ensures Recorded(cfg, s, m).value.ledger == s.ledger
  {
  }

  lemma AdvanceCalls(cfg: Config, s: State)
    requires Advance(cfg, s).Some?
    ensures var t := Advance(cfg, s).value;
            || t.inflight == s.inflight
            || (s.phase.Dispatching? && t.inflight == s.inflight + {Current(s, s.phase.message)})
  {
  }

  lemma AdvanceKeepsKeys(cfg: Config, s: State, k: Key)
    requires Invariant(cfg, s) && Advance(cfg, s).Some?
    ensures KeyInvariant(cfg, Advance(cfg, s).value, k)
  {
    AdvanceWrites(cfg, s);
    AdvanceCalls(cfg, s);
    var t := Advance(cfg, s).value;
    BooksKeepKey(cfg, s, t.ledger, t.inflight, k);
    assert KeyInvariant(cfg, t, k) <==> KeyInvariant(cfg, s.(ledger := t.ledger, inflight := t.inflight), k);
  }

  lemma BooksKeepKey(cfg: Config, s: State, ledger: map<Key, LedgerState>, inflight: set<Key>, k: Key)
    requires KeyInvariant(cfg, s, k) && PhaseInvariant(cfg, s)
    requires inflight == s.inflight || (s.phase.Dispatching? && inflight == s.inflight + {Current(s, s.phase.message)})
    requires ledger == LedgerAfter(s)
    ensures KeyInvariant(cfg, s.(ledger := ledger, inflight := inflight), k)
  {
  }

  lemma LookingKeepsKeys(cfg: Config, s: State, l: Lookup, k: Key)
    requires Invariant(cfg, s) && Looking(s, l).Some?
    ensures KeyInvariant(cfg, Looking(s, l).value, k)
  {
    assert KeyInvariant(cfg, s, k);
  }

  lemma LandKeepsKeys(cfg: Config, s: State, landed: Key, k: Key)
    requires Invariant(cfg, s) && Act(cfg, s, Land(landed)).Some?
    ensures KeyInvariant(cfg, Act(cfg, s, Land(landed)).value, k)
  {
    assert KeyInvariant(cfg, s, k) && KeyInvariant(cfg, s, landed);
  }

  lemma KeysKept(cfg: Config, s: State, a: Action, k: Key)
    requires Invariant(cfg, s) && Act(cfg, s, a).Some?
    ensures KeyInvariant(cfg, Act(cfg, s, a).value, k)
  {
    match a
    case Proceed => AdvanceKeepsKeys(cfg, s, k);
    case Looked(l) => LookingKeepsKeys(cfg, s, l, k);
    case Land(landed) => LandKeepsKeys(cfg, s, landed, k);
    case _ => assert KeyInvariant(cfg, s, k);
  }

  lemma PreparingKeepsPhase(cfg: Config, s: State)
    requires Invariant(cfg, s) && Advance(cfg, s).Some?
    requires s.phase.Claimed? || s.phase.MarkPending? || s.phase.MarkUncertain? || s.phase.MarkAttempt?
    ensures PhaseInvariant(cfg, Advance(cfg, s).value)
  {
    var t := Advance(cfg, s).value;
    assert KeyInvariant(cfg, s, Current(s, s.phase.message));
    if s.phase.Claimed? && s.phase.dispatched {
      AcceptedStays(s, t, s.phase.message);
    }
  }

  lemma SendingKeepsPhase(cfg: Config, s: State)
    requires Invariant(cfg, s) && Advance(cfg, s).Some? && (s.phase.Dispatching? || s.phase.Waiting?)
    ensures PhaseInvariant(cfg, Advance(cfg, s).value)
  {
  }

  lemma FinishingKeepsPhase(cfg: Config, s: State)
    requires Invariant(cfg, s) && Advance(cfg, s).Some?
    requires s.phase.RecordRecovered? || s.phase.Recording? || s.phase.RecordAccepted? || s.phase.MarkAccepted? ||
             s.phase.Completing?
    ensures PhaseInvariant(cfg, Advance(cfg, s).value)
  {
    if !s.phase.Completing? {
      assert Acceptances(Advance(cfg, s).value, Current(s, s.phase.message)) >= 1;
    }
  }

  lemma AdvanceKeepsPhase(cfg: Config, s: State)
    requires Invariant(cfg, s) && Advance(cfg, s).Some?
    ensures PhaseInvariant(cfg, Advance(cfg, s).value)
  {
    if s.phase.Claimed? || s.phase.MarkPending? || s.phase.MarkUncertain? || s.phase.MarkAttempt? {
      PreparingKeepsPhase(cfg, s);
    } else if s.phase.Dispatching? || s.phase.Waiting? {
      SendingKeepsPhase(cfg, s);
    } else {
      FinishingKeepsPhase(cfg, s);
    }
  }

  lemma LookingKeepsPhase(cfg: Config, s: State, l: Lookup)
    requires SafeProvider(cfg) && Invariant(cfg, s)
    requires (s.phase.Recovering? || s.phase.SteerLookup?) && LookupPossible(cfg, s, Current(s, s.phase.message), l)
    ensures Looking(s, l).Some? && PhaseInvariant(cfg, Looking(s, l).value)
  {
  }

  lemma LandKeepsPhase(cfg: Config, s: State, landed: Key)
    requires Invariant(cfg, s) && Act(cfg, s, Land(landed)).Some?
    ensures PhaseInvariant(cfg, Act(cfg, s, Land(landed)).value)
  {
    var t := Act(cfg, s, Land(landed)).value;
    assert KeyInvariant(cfg, s, landed);
    if !s.phase.Idle? && SomewhereAccepted(s, s.phase.message) {
      assert forall k :: KeyInvariant(cfg, s, k) ==> Acceptances(s, k) <= Acceptances(t, k);
      AcceptedStays(s, t, s.phase.message);
    }
  }

  lemma ReplyKeepsPhase(cfg: Config, s: State, a: Action)
    requires Invariant(cfg, s) && Act(cfg, s, a).Some? && (a.Reply? || a.SteerReply?)
    ensures PhaseInvariant(cfg, Act(cfg, s, a).value)
  {
  }

  lemma OthersKeepPhase(cfg: Config, s: State, a: Action)
    requires Invariant(cfg, s) && Act(cfg, s, a).Some?
    requires a.Restart? || a.SetActive? || a.Claim? || a.Fail?
    ensures PhaseInvariant(cfg, Act(cfg, s, a).value)
  {
    var t := Act(cfg, s, a).value;
    if a.Claim? && a.message in s.dispatched {
      AcceptedStays(s, t, a.message);
    }
    if a.SetActive? && !s.phase.Idle? && SomewhereAccepted(s, s.phase.message) {
      AcceptedStays(s, t, s.phase.message);
    }
  }

  lemma PhaseKept(cfg: Config, s: State, a: Action)
    requires SafeProvider(cfg) && Invariant(cfg, s) && Act(cfg, s, a).Some?
    ensures PhaseInvariant(cfg, Act(cfg, s, a).value)
  {
    match a
    case Proceed => AdvanceKeepsPhase(cfg, s);
    case Looked(l) => LookingKeepsPhase(cfg, s, l);
    case Land(landed) => LandKeepsPhase(cfg, s, landed);
    case Reply(_) => ReplyKeepsPhase(cfg, s, a);
    case SteerReply(_, _) => ReplyKeepsPhase(cfg, s, a);
    case _ => OthersKeepPhase(cfg, s, a);
  }

  // ----------------------------------------------------------------------------- theorems

  lemma InvariantKept(cfg: Config, s: State, a: Action)
    requires SafeProvider(cfg) && Invariant(cfg, s) && Act(cfg, s, a).Some?
    ensures Invariant(cfg, Act(cfg, s, a).value)
  {
    forall k
      ensures KeyInvariant(cfg, Act(cfg, s, a).value, k)
    {
      KeysKept(cfg, s, a, k);
    }
    PhaseKept(cfg, s, a);
    StoreKept(cfg, s, a);
  }

  lemma {:induction false} RunsKeepInvariant(cfg: Config, actions: seq<Action>)
    requires SafeProvider(cfg) && Run(cfg, actions).Some?
    ensures Invariant(cfg, Run(cfg, actions).value)
  {
    if actions != [] {
      var n := |actions| - 1;
      RunsKeepInvariant(cfg, actions[..n]);
      InvariantKept(cfg, Run(cfg, actions[..n]).value, actions[n]);
    }
  }

  /** With a safe provider, in every run of claims, ledger writes, submissions, steering,
      lookups, crashes and restarts, each message is accepted at most once per session, and
      HQ completes a message only after some session accepted it. */
  lemma DeliveryIsSafe(cfg: Config, actions: seq<Action>)
    requires SafeProvider(cfg) && Run(cfg, actions).Some?
    ensures forall k :: Acceptances(Run(cfg, actions).value, k) <= 1
    ensures forall m | m in Run(cfg, actions).value.completed :: SomewhereAccepted(Run(cfg, actions).value, m)
    ensures forall k | LedgerOf(Run(cfg, actions).value, k) == Accepted :: Acceptances(Run(cfg, actions).value, k) == 1
  {
    RunsKeepInvariant(cfg, actions);
    forall k
      ensures Acceptances(Run(cfg, actions).value, k) <= 1
      ensures LedgerOf(Run(cfg, actions).value, k) == Accepted ==> Acceptances(Run(cfg, actions).value, k) == 1
    {
      assert KeyInvariant(cfg, Run(cfg, actions).value, k);
    }
  }

  /** What each phase knows of the ledger, whatever the provider does. */
  predicate LedgerFits(s: State) {
    if s.phase.MarkPending? then LedgerOf(s, Current(s, s.phase.message)) == Unknown
    else if s.phase.MarkUncertain? then
      LedgerOf(s, Current(s, s.phase.message)) == Pending || LedgerOf(s, Current(s, s.phase.message)) == Uncertain
    else
      s.phase.Idle? || s.phase.Claimed? || s.phase.RecordAccepted? || s.phase.Completing? ||
      LedgerOf(s, Current(s, s.phase.message)) == Uncertain
  }

  lemma AdvanceFits(cfg: Config, s: State)
    requires LedgerFits(s) && Advance(cfg, s).Some?
    ensures LedgerFits(Advance(cfg, s).value)
  {
    AdvanceWrites(cfg, s);
  }

  lemma ActFits(cfg: Config, s: State, a: Action)
    requires LedgerFits(s) && Act(cfg, s, a).Some?
    ensures LedgerFits(Act(cfg, s, a).value)
  {
    if a.Proceed? {
      AdvanceFits(cfg, s);
    }
  }

  lemma {:induction false} RunsFit(cfg: Config, actions: seq<Action>)
    requires Run(cfg, actions).Some?
    ensures LedgerFits(Run(cfg, actions).value)
  {
    if actions != [] {
      var n := |actions| - 1;
      RunsFit(cfg, actions[..n]);
      ActFits(cfg, Run(cfg, actions[..n]).value, actions[n]);
    }
  }

  /** In every run, with any provider, the ledger entry of a submission either stays or moves
      one step along unknown, pending, uncertain, accepted. */
  lemma LedgerMovesForward(cfg: Config, actions: seq<Action>, a: Action, k: Key)
    requires Run(cfg, actions + [a]).Some?
    ensures Run(cfg, actions).Some?
    ensures var before, after := LedgerOf(Run(cfg, actions).value, k), LedgerOf(Run(cfg, actions + [a]).value, k);
            after == before || Rank(after) == Rank(before) + 1
  {
    assert (actions + [a])[..|actions|] == actions;
    var s := Run(cfg, actions).value;
    RunsFit(cfg, actions);
    if a.Proceed? {
      AdvanceWrites(cfg, s);
    }
  }

  lemma Extend(cfg: Config, actions: seq<Action>, s: State, a: Action) returns (more: seq<Action>, t: State)
    requires Run(cfg, actions) == Some(s) && Act(cfg, s, a).Some?
    ensures more == actions + [a] && t == Act(cfg, s, a).value && Run(cfg, more) == Some(t)
  {
    more, t := actions + [a], Act(cfg, s, a).value;
    assert more[..|actions|] == actions;
  }

  /** An uncertain steering result that carries no error, followed by a failed lookup, lets the
      dispatcher submit a message that is already accepted. */
  lemma SilentSteeringDuplicates(cfg: Config) returns (actions: seq<Action>)
    requires !SafeProvider(cfg)
    ensures Run(cfg, actions).Some? && Acceptances(Run(cfg, actions).value, Key("s", "m")) == 2
  {
    var s;
    actions, s := Extend(cfg, [], INITIAL, Restart("s"));
    actions, s := Extend(cfg, actions, s, SetActive(Some("op")));
    actions, s := SendFirst(cfg, actions, s);
    actions, s := SteerSilently(cfg, actions, s);
    actions, s := SubmitAgain(cfg, actions, s);
  }

  /** The active operation ends and the waiting message is submitted once more. */
  lemma SubmitAgain(cfg: Config, start: seq<Action>, s: State) returns (actions: seq<Action>, t: State)
    requires !cfg.idempotent && Run(cfg, start) == Some(s)
    requires s.phase == Waiting("m", "op") && s.session == "s"
    ensures Run(cfg, actions) == Some(t)
    ensures Acceptances(t, Key("s", "m")) == Acceptances(s, Key("s", "m")) + 1
  {
    actions, t := Extend(cfg, start, s, SetActive(None));
    actions, t := Extend(cfg, actions, t, Proceed);
    assert t == s.(active := None, phase := Dispatching("m"));
    actions, t := Extend(cfg, actions, t, Proceed);
    actions, t := Extend(cfg, actions, t, Land(Key("s", "m")));
  }

  /** The steering call lands, its answer is lost, and the dispatcher waits to try again. */
  lemma SteerSilently(cfg: Config, start: seq<Action>, s: State) returns (actions: seq<Action>, t: State)
    requires !SafeProvider(cfg) && Run(cfg, start) == Some(s)
    requires s.phase == Dispatching("m") && s.active == Some("op") && s.session == "s"
    requires s.accepted == map[] && s.inflight == {}
    ensures Run(cfg, actions) == Some(t) && t.phase == Waiting("m", "op") && t.session == "s"
    ensures Acceptances(t, Key("s", "m")) == 1
  {
    actions, t := SteerAndLand(cfg, start, s);
    actions, t := Extend(cfg, actions, t, SteerReply(ResultUncertain, false));
    actions, t := Extend(cfg, actions, t, Looked(LookupFailed));
  }

  lemma SteerAndLand(cfg: Config, start: seq<Action>, s: State) returns (actions: seq<Action>, t: State)
    requires cfg.steers && Run(cfg, start) == Some(s)
    requires s.phase == Dispatching("m") && s.active == Some("op") && s.session == "s"
    requires s.accepted == map[] && s.inflight == {}
    ensures Run(cfg, actions) == Some(t)
    ensures t == s.(phase := Steering("m", "op"), accepted := map[Key("s", "m") := 1])
  {
    actions, t := Extend(cfg, start, s, Proceed);
    actions, t := Extend(cfg, actions, t, Land(Key("s", "m")));
  }

  /** A first delivery reaches the dispatch loop. */
  lemma SendFirst(cfg: Config, start: seq<Action>, s: State) returns (actions: seq<Action>, t: State)
    requires Run(cfg, start) == Some(s) && s == INITIAL.(session := "s", active := s.active)
    ensures Run(cfg, actions) == Some(t)
    ensures t == s.(phase := Dispatching("m"), ledger := map[Key("s", "m") := Uncertain],
                    attempts := if cfg.project then map["m" := AttemptUncertain] else map[])
    ensures actions == start + [Claim("m"), Proceed, Proceed, Proceed] + if cfg.project then [Proceed] else []
  {
    actions, t := Extend(cfg, start, s, Claim("m"));
    assert LedgerOf(t, Current(t, "m")) == Unknown;
    actions, t := Extend(cfg, actions, t, Proceed);
    actions, t := Extend(cfg, actions, t, Proceed);
    actions, t := Extend(cfg, actions, t, Proceed);
    if cfg.project {
      assert t.phase == MarkAttempt("m") && t.attempts["m"] == AttemptPending;
      actions, t := Extend(cfg, actions, t, Proceed);
    }
  }

  /** At-most-once acceptance holds over all runs exactly for safe providers. */
  lemma SafetyIsExact(cfg: Config)
    ensures SafeProvider(cfg) <==>
            forall actions, k :: Run(cfg, actions).Some? ==> Acceptances(Run(cfg, actions).value, k) <= 1
  {
    if SafeProvider(cfg) {
      forall actions, k | Run(cfg, actions).Some?
        ensures Acceptances(Run(cfg, actions).value, k) <= 1
      {
        DeliveryIsSafe(cfg, actions);
      }
    } else {
      var actions := SilentSteeringDuplicates(cfg);
    }
  }
}
