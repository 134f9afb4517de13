/**
 Project messages are claimed in the order of their acceptance: the store serves only the
 earliest one that is not complete. So a message that can never be completed holds up every
 later one.
 */
module ProjectQueue {
  import opened Options
  import opened Sorting
  import opened Delivery
  import opened ProjectDelivery
  import opened ProjectRecovery

  /** `order` lists the project's messages by sequence number. The store serves `m` when it is
      the first that is not complete. */
  ghost predicate Serves(order: seq<Message>, s: State, m: Message) {
    exists p :: 0 <= p < |order| && order[p] == m && forall q | 0 <= q < p :: order[q] in s.completed
  }

  /** Every claim of the run takes the message that the store serves. */
  ghost predicate InOrder(cfg: Config, order: seq<Message>, actions: seq<Action>) {
    forall i | 0 <= i < |actions| && actions[i].Claim? ::
      Run(cfg, actions[..i]).Some? && Serves(order, Run(cfg, actions[..i]).value, actions[i].message)
  }

  lemma InOrderPrefix(cfg: Config, order: seq<Message>, actions: seq<Action>, n: nat)
    requires InOrder(cfg, order, actions) && n <= |actions|
    ensures InOrder(cfg, order, actions[..n])
  {
    assert forall i | 0 <= i <= n :: actions[..n][..i] == actions[..i];
  }

  lemma {:induction false} PrefixRuns(cfg: Config, actions: seq<Action>, n: nat)
    requires Run(cfg, actions).Some? && n <= |actions|
    ensures Run(cfg, actions[..n]).Some? && Run(cfg, actions[..n]).value.completed <= Run(cfg, actions).value.completed
  {
    if n == |actions| {
      assert actions[..n] == actions;
    } else {
      var last := |actions| - 1;
      assert actions[..last][..n] == actions[..n];
      PrefixRuns(cfg, actions[..last], n);
      CompletedGrows(cfg, Run(cfg, actions[..last]).value, actions[last]);
    }
  }

  lemma CompletedGrows(cfg: Config, s: State, a: Action)
    requires Act(cfg, s, a).Some?
    ensures s.completed <= Act(cfg, s, a).value.completed
  {
  }

  /** Nobody has done anything about the message: it was not claimed, marked, sent, accepted,
      recorded or completed. */
  ghost predicate Untouched(s: State, m: Message) {
    && (s.phase.Idle? || s.phase.message != m)
    && m !in s.attempts && m !in s.completed && m !in s.dispatched
    && (forall session :: Absent(s, Key(session, m)) && LedgerOf(s, Key(session, m)) == Unknown)
  }

  lemma AdvanceUntouched(cfg: Config, s: State, m: Message)
    requires Untouched(s, m) && Advance(cfg, s).Some?
    ensures Untouched(Advance(cfg, s).value, m)
  {
    AdvanceWrites(cfg, s);
    AdvanceCalls(cfg, s);
    forall session
      ensures Absent(Advance(cfg, s).value, Key(session, m)) && LedgerOf(Advance(cfg, s).value, Key(session, m)) == Unknown
    {
      assert Absent(s, Key(session, m));
    }
  }

  lemma ActUntouched(cfg: Config, s: State, a: Action, m: Message)
    requires Untouched(s, m) && Act(cfg, s, a).Some? && a != Claim(m)
    ensures Untouched(Act(cfg, s, a).value, m)
  {
    if a.Proceed? {
      AdvanceUntouched(cfg, s, m);
    } else {
      forall session
        ensures Absent(Act(cfg, s, a).value, Key(session, m))
        ensures LedgerOf(Act(cfg, s, a).value, Key(session, m)) == Unknown
      {
        assert Absent(s, Key(session, m)) && LedgerOf(s, Key(session, m)) == Unknown;
      }
    }
  }

  /** While a message is not complete, nothing happens to the ones after it. */
  lemma {:induction false} LaterIsUntouched(cfg: Config, order: seq<Message>, actions: seq<Action>, p: nat, q: nat)
    requires Distinct(order) && p < q < |order| && Run(cfg, actions).Some? && InOrder(cfg, order, actions)
    requires order[p] !in Run(cfg, actions).value.completed
    ensures Untouched(Run(cfg, actions).value, order[q])
  {
    if actions != [] {
      var n := |actions| - 1;
      InOrderPrefix(cfg, order, actions, n);
      PrefixRuns(cfg, actions, n);
      LaterIsUntouched(cfg, order, actions[..n], p, q);
      NotServedYet(cfg, order, actions, p, q);
      ActUntouched(cfg, Run(cfg, actions[..n]).value, actions[n], order[q]);
    }
  }

  lemma NotServedYet(cfg: Config, order: seq<Message>, actions: seq<Action>, p: nat, q: nat)
    requires Distinct(order) && p < q < |order| && actions != [] && InOrder(cfg, order, actions)
    requires var before := Run(cfg, actions[..|actions| - 1]); before.Some? && order[p] !in before.value.completed
    ensures actions[|actions| - 1] != Claim(order[q])
  {
  }

  /** One stuck message is enough: if an idle state holds a message that was marked and given
      back, whose dispatch is not recorded and that lookup cannot find, then in every ordered
      continuation no later message is ever claimed, sent, accepted or completed. */
  lemma HeadOfLineBlocks(cfg: Config, order: seq<Message>, prefix: seq<Action>, rest: seq<Action>, p: nat, q: nat)
    requires cfg.project && Distinct(order) && p < q < |order|
    requires Run(cfg, prefix).Some? && Run(cfg, prefix + rest).Some? && InOrder(cfg, order, prefix + rest)
    requires Run(cfg, prefix).value.phase == Idle && AttemptSpent(Run(cfg, prefix).value, order[p])
    requires order[p] !in Run(cfg, prefix).value.completed && order[p] !in Run(cfg, prefix).value.dispatched
    requires cfg.reconciles ==> Nowhere(Run(cfg, prefix).value, order[p])
    ensures Untouched(Run(cfg, prefix + rest).value, order[q])
  {
    NeverCompletes(cfg, prefix, rest, order[p]);
    assert !Completes(cfg, prefix, rest, order[p]);
    LaterIsUntouched(cfg, order, prefix + rest, p, q);
  }

  /** And only such a message is stuck: the message that is served next is completed by some
      ordered continuation exactly under the condition that holds without the order. */
  lemma CompletableInOrder(cfg: Config, order: seq<Message>, prefix: seq<Action>, m: Message)
    requires cfg.project && Run(cfg, prefix).Some? && Run(cfg, prefix).value.phase == Idle
    requires InOrder(cfg, order, prefix) && Serves(order, Run(cfg, prefix).value, m)
    requires AttemptSpent(Run(cfg, prefix).value, m) && m !in Run(cfg, prefix).value.completed
    ensures (exists rest :: InOrder(cfg, order, prefix + rest) && Completes(cfg, prefix, rest, m)) <==>
            m in Run(cfg, prefix).value.dispatched || (cfg.reconciles && !Nowhere(Run(cfg, prefix).value, m))
  {
    CompletableExactly(cfg, prefix, m);
    if m in Run(cfg, prefix).value.dispatched || (cfg.reconciles && !Nowhere(Run(cfg, prefix).value, m)) {
      var rest := Complete(cfg, prefix, m);
      StaysInOrder(cfg, order, prefix, rest, m);
    }
  }

  /** Claiming nothing but the message that is served keeps a run in order. */
  lemma StaysInOrder(cfg: Config, order: seq<Message>, prefix: seq<Action>, rest: seq<Action>, m: Message)
    requires Run(cfg, prefix).Some? && Run(cfg, prefix + rest).Some? && InOrder(cfg, order, prefix)
    requires Serves(order, Run(cfg, prefix).value, m) && ClaimsOnly(rest, m)
    ensures InOrder(cfg, order, prefix + rest)
  {
    var actions := prefix + rest;
    forall i | 0 <= i < |actions| && actions[i].Claim?
      ensures Run(cfg, actions[..i]).Some? && Serves(order, Run(cfg, actions[..i]).value, actions[i].message)
    {
      PrefixRuns(cfg, actions, i);
      if i < |prefix| {
        assert actions[..i] == prefix[..i] && actions[i] == prefix[i];
      } else {
        assert actions[i] == rest[i - |prefix|] && actions[i] in rest;
        assert actions[..i][..|prefix|] == prefix;
        PrefixRuns(cfg, actions[..i], |prefix|);
        ServesStill(order, Run(cfg, prefix).value, Run(cfg, actions[..i]).value, m);
      }
    }
  }

  lemma ServesStill(order: seq<Message>, s: State, t: State, m: Message)
    requires Serves(order, s, m) && s.completed <= t.completed
    ensures Serves(order, t, m)
  {
    var p :| 0 <= p < |order| && order[p] == m && forall q | 0 <= q < p :: order[q] in s.completed;
    assert forall q | 0 <= q < p :: order[q] in t.completed;
  }
}
