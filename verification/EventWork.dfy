/**
 What a harness session hands to persistence: an output, an activity, or both, and the key
 under which an undelivered activity may be replaced by a later one.
 */
module EventWork {
  import opened Options

  const NUL: char := '\0'
  const PLAN := "plan"
  const DIFF := "diff"
  const PROGRESS := "progress"
  const OPERATION := "operation-status"
  const RUNNING := "running"

  /** Times are whole nanoseconds. */
  datatype Output = Output(key: string, createdAt: int)

  datatype Activity = Activity(
    installation: string, mailbox: string, provider: string, session: string, operation: string,
    kind: string, item: string, status: string, body: string, occurredAt: int)

  datatype Work = Work(output: Option<Output>, activity: Option<Activity>)

  predicate LatestValueKind(kind: string) {
    kind == PLAN || kind == DIFF || kind == PROGRESS || kind == OPERATION
  }

  /** Only a latest-value activity that carries no output may be replaced. */
  predicate Replaceable(w: Work) {
    w.output.None? && w.activity.Some? &&
    var a := w.activity.value;
    LatestValueKind(a.kind) && (a.kind == OPERATION ==> a.status == RUNNING)
  }

  function Sep(a: string, b: string): string {
    a + [NUL] + b
  }

  function Joined(parts: seq<string>): string
    requires parts != []
  {
    if |parts| == 1 then parts[0] else Sep(parts[0], Joined(parts[1..]))
  }

  /** What the work is the latest value of. */
  function Identity(a: Activity): seq<string> {
    [a.installation, a.mailbox, a.provider, a.session, a.operation, a.kind, a.item]
  }

  function CoalesceKey(w: Work): string {
    if Replaceable(w) then Joined(Identity(w.activity.value)) else ""
  }

  predicate NulFree(parts: seq<string>) {
    forall i | 0 <= i < |parts| :: NUL !in parts[i]
  }

  lemma SepAssociates(a: string, b: string, c: string)
    ensures Sep(Sep(a, b), c) == Sep(a, Sep(b, c))
  {
  }

  lemma SepSplits(a: string, b: string, c: string, d: string)
    requires Sep(a, b) == Sep(c, d) && |a| == |c|
    ensures a == c && b == d
  {
    assert Sep(a, b)[..|a|] == a && Sep(c, d)[..|a|] == c;
    assert Sep(a, b)[|a| + 1..] == b && Sep(c, d)[|a| + 1..] == d;
  }

  /** A longer first piece contains the shorter one and its separator. */
  lemma Peel(x: string, a: string, q: string, r: string) returns (rest: string)
    requires Sep(x, a) == Sep(q, r) && |q| > |x|
    ensures q == Sep(x, rest) && a == Sep(rest, r)
  {
    rest := q[|x| + 1..];
    assert q == Sep(x, a)[..|q|] && x == Sep(x, a)[..|x|] && Sep(x, a)[|x|] == NUL;
    assert a == Sep(q, r)[|x| + 1..];
  }

  lemma FirstPieceAgrees(x: string, a: string, y: string, b: string)
    requires NUL !in x && NUL !in y && Sep(x, a) == Sep(y, b)
    ensures x == y && a == b
  {
    assert Sep(x, a)[|x|] == NUL && Sep(y, b)[|y|] == NUL;
    assert Sep(x, a)[..|x|] == x && Sep(y, b)[..|y|] == y;
    SepSplits(x, a, y, b);
  }

  lemma {:induction false} JoinedIsInjective(a: seq<string>, b: seq<string>)
    requires |a| == |b| > 0 && NulFree(a) && NulFree(b) && Joined(a) == Joined(b)
    ensures a == b
  {
    if |a| > 1 {
      FirstPieceAgrees(a[0], Joined(a[1..]), b[0], Joined(b[1..]));
      JoinedIsInjective(a[1..], b[1..]);
      assert a == [a[0]] + a[1..] && b == [b[0]] + b[1..];
    }
  }

  // ------------------------------------------------------------------- when keys identify

  /** How many separators the text holds. */
  function Nuls(s: string): nat {
    if s == "" then 0 else Nuls(s[..|s| - 1]) + if s[|s| - 1] == NUL then 1 else 0
  }

  lemma {:induction false} NulsAdd(a: string, b: string)
    ensures Nuls(a + b) == Nuls(a) + Nuls(b)
  {
    if b == "" {
      assert a + b == a;
    } else {
      assert (a + b)[..|a + b| - 1] == a + b[..|b| - 1];
      NulsAdd(a, b[..|b| - 1]);
    }
  }

  lemma {:induction false} NulsOfNone(s: string)
    ensures Nuls(s) == 0 <==> NUL !in s
  {
    if s != "" {
      NulsOfNone(s[..|s| - 1]);
      assert s == s[..|s| - 1] + [s[|s| - 1]];
    }
  }

  lemma NulsOfSep(a: string, b: string)
    ensures Nuls(Sep(a, b)) == Nuls(a) + 1 + Nuls(b)
  {
    NulsAdd(a + [NUL], b);
    NulsAdd(a, [NUL]);
    assert Nuls([NUL]) == 1;
  }

  /** Joining adds one separator fewer than there are parts, and the parts keep their own. */
  lemma {:induction false} NulsOfJoined(parts: seq<string>)
    requires parts != []
    ensures Nuls(Joined(parts)) >= |parts| - 1
    ensures Nuls(Joined(parts)) == |parts| - 1 <==> NulFree(parts)
  {
    NulsOfNone(parts[0]);
    if |parts| > 1 {
      NulsOfJoined(parts[1..]);
      NulsOfSep(parts[0], Joined(parts[1..]));
      assert parts == [parts[0]] + parts[1..];
      assert NulFree(parts) <==> NUL !in parts[0] && NulFree(parts[1..]) by {
        if NUL !in parts[0] && NulFree(parts[1..]) {
          forall i | 0 <= i < |parts|
            ensures NUL !in parts[i]
          {
            assert i > 0 ==> parts[i] == parts[1..][i - 1];
          }
        }
        if NulFree(parts) {
          assert forall i | 0 <= i < |parts[1..]| :: parts[1..][i] == parts[i + 1];
        }
      }
    }
  }

  /** Installation, mailbox, provider, session and operation. */
  function Owner(a: Activity): seq<string> {
    [a.installation, a.mailbox, a.provider, a.session, a.operation]
  }

  function Prefix(a: Activity): string {
    Joined(Owner(a))
  }

  lemma KeySplits(a: Activity)
    ensures Joined(Identity(a)) == Sep(Prefix(a), Sep(a.kind, a.item))
  {
    JoinedConcat(Owner(a), [a.kind, a.item]);
    assert Identity(a) == Owner(a) + [a.kind, a.item];
    assert [a.kind, a.item][1..] == [a.item];
  }

  lemma {:induction false} JoinedConcat(a: seq<string>, b: seq<string>)
    requires a != [] && b != []
    ensures Joined(a + b) == Sep(Joined(a), Joined(b))
  {
    if |a| == 1 {
      assert (a + b)[1..] == b;
    } else {
      assert (a + b)[1..] == a[1..] + b;
      JoinedConcat(a[1..], b);
      SepAssociates(a[0], Joined(a[1..]), Joined(b));
    }
  }

  /** At `i` a part of the item begins that is not the item's last. */
  predicate PartAt(item: string, i: nat, part: string) {
    && i + |part| < |item| && (i == 0 || item[i - 1] == NUL)
    && item[i..i + |part|] == part && item[i + |part|] == NUL
  }

  ghost predicate HidesKind(item: string) {
    exists i: nat, kind :: PartAt(item, i, kind) && LatestValueKind(kind)
  }

  /** No other replaceable thing has this key. */
  ghost predicate Identifies(a: Activity) {
    forall w | Replaceable(w) && CoalesceKey(w) == Joined(Identity(a)) :: Identity(w.activity.value) == Identity(a)
  }

  lemma NulFreeKinds(kind: string)
    requires LatestValueKind(kind)
    ensures NUL !in kind
  {
  }

  /** A second reading of a key whose owner fields are clean finds its kind inside the item. */
  lemma SecondReading(a: Activity, b: Activity)
    requires LatestValueKind(a.kind) && LatestValueKind(b.kind) && NulFree(Owner(a))
    requires Joined(Identity(a)) == Joined(Identity(b))
    ensures Identity(a) == Identity(b) || HidesKind(a.item)
  {
    KeySplits(a);
    KeySplits(b);
    NulsOfJoined(Owner(a));
    NulsOfJoined(Owner(b));
    if |Prefix(a)| == |Prefix(b)| {
      SameReading(a, b);
    } else if |Prefix(a)| < |Prefix(b)| {
      NulFreeKinds(a.kind);
      var i := LaterPart(Prefix(a), a.kind, a.item, Prefix(b), b.kind, b.item);
    } else {
      var rest := Peel(Prefix(b), Sep(b.kind, b.item), Prefix(a), Sep(a.kind, a.item));
      NulsOfSep(Prefix(b), rest);
    }
  }

  lemma SameReading(a: Activity, b: Activity)
    requires LatestValueKind(a.kind) && LatestValueKind(b.kind) && NulFree(Owner(a))
    requires Joined(Identity(a)) == Joined(Identity(b)) && |Prefix(a)| == |Prefix(b)|
    ensures Identity(a) == Identity(b)
  {
    KeySplits(a);
    KeySplits(b);
    SepSplits(Prefix(a), Sep(a.kind, a.item), Prefix(b), Sep(b.kind, b.item));
    NulFreeKinds(a.kind);
    NulFreeKinds(b.kind);
    FirstPieceAgrees(a.kind, a.item, b.kind, b.item);
    NulsOfJoined(Owner(a));
    NulsOfJoined(Owner(b));
    JoinedIsInjective(Owner(a), Owner(b));
    assert Identity(a) == Owner(a) + [a.kind, a.item] && Identity(b) == Owner(b) + [b.kind, b.item];
  }

  /** A longer first piece pushes the second piece into the last one. */
  lemma LaterPart(p: string, x: string, a: string, q: string, y: string, b: string) returns (i: nat)
    requires |q| > |p| && NUL !in x && Sep(p, Sep(x, a)) == Sep(q, Sep(y, b))
    ensures PartAt(a, i, y)
  {
    var rest := Peel(p, Sep(x, a), q, Sep(y, b));
    assert Sep(x, a)[|rest|] == NUL;
    if |rest| == |x| {
      SepSplits(x, a, rest, Sep(y, b));
      i := 0;
    } else {
      var inner := Peel(x, a, rest, Sep(y, b));
      i := |inner| + 1;
    }
    assert a[i..i + |y|] == y;
  }

  // ------------------------------------------------------------------ when they do not

  /** A separator may move from one part to its neighbour. */
  lemma {:induction false} JoinedShifts(parts: seq<string>, i: nat, x: string, y: string)
    requires i + 1 < |parts| && parts[i] == Sep(x, y)
    ensures Joined(parts) == Joined(parts[i := x][i + 1 := Sep(y, parts[i + 1])])
  {
    var moved := parts[i := x][i + 1 := Sep(y, parts[i + 1])];
    if i == 0 {
      JoinedMergesTwo(parts);
      JoinedMergesTwo(moved);
      assert moved[2..] == parts[2..];
      SepAssociates(x, y, parts[1]);
    } else {
      JoinedShifts(parts[1..], i - 1, x, y);
      assert moved[1..] == parts[1..][i - 1 := x][i := Sep(y, parts[i + 1])];
    }
  }

  lemma JoinedMergesTwo(parts: seq<string>)
    requires |parts| >= 2
    ensures Joined(parts) == Joined([Sep(parts[0], parts[1])] + parts[2..])
  {
    var merged := [Sep(parts[0], parts[1])] + parts[2..];
    if |parts| == 2 {
      assert parts[1..] == [parts[1]];
    } else {
      assert merged[1..] == parts[2..] && parts[1..][1..] == parts[2..];
      SepAssociates(parts[0], parts[1], Joined(parts[2..]));
    }
  }

  function FromIdentity(parts: seq<string>): Work
    requires |parts| == 7
  {
    Work(None, Some(Activity(parts[0], parts[1], parts[2], parts[3], parts[4], parts[5], parts[6], RUNNING, "", 0)))
  }

  lemma OtherReading(a: Activity, parts: seq<string>)
    requires |parts| == 7 && LatestValueKind(parts[5]) && Joined(parts) == Joined(Identity(a)) && parts != Identity(a)
    ensures !Identifies(a)
  {
    var w := FromIdentity(parts);
    assert Identity(w.activity.value) == parts;
    assert Replaceable(w) && CoalesceKey(w) == Joined(Identity(a));
  }

  lemma DirtyOwnerIsAmbiguous(a: Activity, i: nat)
    requires LatestValueKind(a.kind) && i < 5 && NUL in Owner(a)[i]
    ensures !Identifies(a)
  {
    var parts := Identity(a);
    assert parts[i] == Owner(a)[i];
    var k :| 0 <= k < |parts[i]| && parts[i][k] == NUL;
    var x, y := parts[i][..k], parts[i][k + 1..];
    assert parts[i] == Sep(x, y);
    if i < 4 {
      JoinedShifts(parts, i, x, y);
      OtherReading(a, parts[i := x][i + 1 := Sep(y, parts[i + 1])]);
    } else {
      var moved := parts[3 := Sep(parts[3], x)][4 := y];
      JoinedShifts(moved, 3, parts[3], x);
      assert moved[3 := parts[3]][4 := Sep(x, y)] == parts;
      OtherReading(a, moved);
    }
  }

  lemma HiddenKindIsAmbiguous(a: Activity)
    requires LatestValueKind(a.kind) && HidesKind(a.item)
    ensures !Identifies(a)
  {
    var i: nat, kind :| PartAt(a.item, i, kind) && LatestValueKind(kind);
    var before, rest := SplitAtPart(a.kind, a.item, i, kind);
    var b := a.(operation := Sep(a.operation, before), kind := kind, item := rest);
    SameKey(a, b, before);
    assert Identity(b)[4] != Identity(a)[4];
    OtherReading(a, Identity(b));
  }

  lemma SplitAtPart(x: string, item: string, i: nat, part: string) returns (before: string, rest: string)
    requires PartAt(item, i, part)
    ensures Sep(x, item) == Sep(before, Sep(part, rest))
  {
    rest := item[i + |part| + 1..];
    if i == 0 {
      before := x;
      assert item == Sep(part, rest);
    } else {
      before := Sep(x, item[..i - 1]);
      assert item == Sep(item[..i - 1], Sep(part, rest));
      SepAssociates(x, item[..i - 1], Sep(part, rest));
    }
  }

  /** The end of the operation and the front of the kind and item may be read either way. */
  lemma SameKey(a: Activity, b: Activity, before: string)
    requires b == a.(operation := Sep(a.operation, before), kind := b.kind, item := b.item)
    requires Sep(a.kind, a.item) == Sep(before, Sep(b.kind, b.item))
    ensures Joined(Identity(a)) == Joined(Identity(b))
  {
    KeySplits(a);
    KeySplits(b);
    var owner := [a.installation, a.mailbox, a.provider, a.session];
    assert Owner(a) == owner + [a.operation] && Owner(b) == owner + [b.operation];
    JoinedConcat(owner, [a.operation]);
    JoinedConcat(owner, [b.operation]);
    SepAssociates(Joined(owner), a.operation, before);
    SepAssociates(Prefix(a), before, Sep(b.kind, b.item));
  }

  // ---------------------------------------------------------------------------- main result

  /** Only plans, diffs, progress and running operations may be replaced, and only without an
      output; so the end of an operation, commands, files and tool calls never are. */
  lemma OnlyLatestValuesHaveKeys(w: Work)
    ensures CoalesceKey(w) != "" <==>
            && w.output.None? && w.activity.Some?
            && (|| w.activity.value.kind in {"plan", "diff", "progress"}
                || (w.activity.value.kind == "operation-status" && w.activity.value.status == "running"))
  {
    if Replaceable(w) {
      KeySplits(w.activity.value);
      assert |CoalesceKey(w)| > 0;
    }
  }

  /** The key of a latest-value activity identifies it among all replaceable works exactly when
      the five owner fields hold no separator and no part of the item but its last is itself a
      latest-value kind. Works that are not replaceable have the empty key. */
  lemma KeyIdentifiesExactly(v: Work)
    requires Replaceable(v)
    ensures var a := v.activity.value;
            Identifies(a) <==> NulFree(Owner(a)) && !HidesKind(a.item)
    ensures CoalesceKey(v) != "" && forall w | !Replaceable(w) :: CoalesceKey(w) == ""
  {
    var a := v.activity.value;
    KeySplits(a);
    if !NulFree(Owner(a)) {
      var i :| 0 <= i < 5 && NUL in Owner(a)[i];
      DirtyOwnerIsAmbiguous(a, i);
    } else if HidesKind(a.item) {
      HiddenKindIsAmbiguous(a);
    } else {
      forall w | Replaceable(w) && CoalesceKey(w) == Joined(Identity(a))
        ensures Identity(w.activity.value) == Identity(a)
      {
        SecondReading(a, w.activity.value);
      }
    }
  }

  /** The condition can fail for two activities of one session: the plan of item "b.diff.c" in
      operation "a", and the diff of item "c" in operation "a.plan.b", with dots for separators. */
  lemma PlanAndDiffShareAKey(a: Activity)
    ensures var plan := a.(operation := "a", kind := PLAN, item := Sep("b", Sep(DIFF, "c")));
            var diff := a.(operation := Sep("a", Sep(PLAN, "b")), kind := DIFF, item := "c");
            && Replaceable(Work(None, Some(plan))) && Replaceable(Work(None, Some(diff)))
            && CoalesceKey(Work(None, Some(plan))) == CoalesceKey(Work(None, Some(diff)))
            && Identity(plan) != Identity(diff)
  {
    var plan := a.(operation := "a", kind := PLAN, item := Sep("b", Sep(DIFF, "c")));
    var diff := a.(operation := Sep("a", Sep(PLAN, "b")), kind := DIFF, item := "c");
    SepAssociates(PLAN, "b", Sep(DIFF, "c"));
    SameKey(plan, diff, Sep(PLAN, "b"));
    assert Identity(plan)[5] != Identity(diff)[5];
  }
}
