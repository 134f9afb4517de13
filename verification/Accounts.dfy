/**
 Human accounts and their devices: the device states projected from grant, acceptance and
 revocation facts, and the causal frontier an account action must name.
 */
module Accounts {
  import opened CausalGraph
  import opened EventRecords
  import opened Sorting
  import opened Options

  datatype DeviceState = Pending | Active | Revoked

  datatype Account = Account(creator: string, creation: Id, devices: map<string, DeviceState>)

  /** The projected device facts about one installation of one account. */
  ghost function DeviceFacts(records: Records, account: string, installation: string): set<Id> {
    set id | id in records && IsDeviceFact(records, id) && DeviceAt(records, id) == (account, installation)
  }

  predicate IsDeviceFact(records: Records, id: Id) {
    IsProjected(records, id) && IsHumanDevice(records[id].event.content.kind)
  }

  function DeviceAt(records: Records, id: Id): (string, string)
    requires id in records
  {
    var device := DeviceOf(records[id].event.content.payload);
    (device.accountId, device.installation)
  }

  predicate IsAcceptance(records: Records, id: Id) {
    id in records && records[id].event.content.kind == HumanDeviceAccept
  }

  predicate IsRevocation(records: Records, id: Id) {
    id in records && records[id].event.content.kind == HumanDeviceRevoke
  }

  /** The state read off a causal frontier: a revocation on it wins, otherwise the device is
      active when the frontier is non-empty and holds nothing but acceptances. */
  ghost function FrontierState(records: Records, maxima: set<Id>): DeviceState {
    if exists m :: m in maxima && IsRevocation(records, m) then Revoked
    else if maxima != {} && forall m | m in maxima :: IsAcceptance(records, m) then Active
    else Pending
  }

  ghost function StateOf(records: Records, facts: set<Id>): DeviceState {
    FrontierState(records, MaximaOf(GraphOf(records), facts))
  }

  /** On an acyclic log a device is active exactly when it has a fact and every grant and
      revocation of it lies strictly below some acceptance. */
  lemma ActiveMeansAccepted(records: Records, facts: set<Id>)
    requires Acyclic(GraphOf(records)) && facts <= records.Keys
    ensures StateOf(records, facts) == Active <==>
            && facts != {}
            && forall x | x in facts && !IsAcceptance(records, x) ::
                 exists a :: a in facts && IsAcceptance(records, a) && Reaches(GraphOf(records), x, a)
  {
    var g := GraphOf(records);
    MaximaCover(g, facts);
    if StateOf(records, facts) == Active {
      forall x | x in facts && !IsAcceptance(records, x)
        ensures exists a :: a in facts && IsAcceptance(records, a) && Reaches(g, x, a)
      {
        var m := MaximumAbove(g, facts, x);
      }
    }
  }

  /** Some revocation of the device has no fact of it strictly after. */
  ghost predicate RevokedLast(records: Records, facts: set<Id>) {
    exists x :: x in facts && IsRevocation(records, x) && forall y | y in facts :: !Reaches(GraphOf(records), x, y)
  }

  /** Some grant or revocation of the device has no acceptance of it strictly after. */
  ghost predicate Unaccepted(records: Records, facts: set<Id>) {
    exists x :: x in facts && !IsAcceptance(records, x) &&
                forall a | a in facts && IsAcceptance(records, a) :: !Reaches(GraphOf(records), x, a)
  }

  lemma RevokedMeans(records: Records, facts: set<Id>)
    requires Acyclic(GraphOf(records)) && facts <= records.Keys
    ensures StateOf(records, facts) == Revoked <==> RevokedLast(records, facts)
  {
    var g := GraphOf(records);
    if x :| x in facts && IsRevocation(records, x) && forall y | y in facts :: !Reaches(g, x, y) {
      assert x in MaximaOf(g, facts);
    }
    if StateOf(records, facts) == Revoked {
      var m :| m in MaximaOf(g, facts) && IsRevocation(records, m);
      assert forall y | y in facts :: !Reaches(g, m, y);
    }
  }

  /** A device is pending exactly when no revocation of it comes last and it has no fact at
      all or one that no acceptance follows. */
  lemma PendingMeans(records: Records, facts: set<Id>)
    requires Acyclic(GraphOf(records)) && facts <= records.Keys
    ensures StateOf(records, facts) == Pending <==>
            !RevokedLast(records, facts) && (facts == {} || Unaccepted(records, facts))
  {
    RevokedMeans(records, facts);
    ActiveMeansAccepted(records, facts);
  }

  /** Read the state off the frontier, as the loops over the maxima do. */
  method ReadFrontier(records: Records, maxima: seq<Id>) returns (state: DeviceState)
    requires forall m | m in maxima :: m in records
    ensures state == FrontierState(records, Elements(maxima))
  {
    state := Pending;
    for i := 0 to |maxima|
      invariant state == Pending && forall m | m in maxima[..i] :: !IsRevocation(records, m)
    {
      if IsRevocation(records, maxima[i]) {
        state := Revoked;
        assert maxima[i] in Elements(maxima);
        return;
      }
    }
    assert maxima[..|maxima|] == maxima;
    if |maxima| > 0 {
      assert maxima[0] in Elements(maxima);
      for i := 0 to |maxima|
        invariant forall m | m in maxima[..i] :: IsAcceptance(records, m)
      {
        if !IsAcceptance(records, maxima[i]) {
          assert maxima[i] in Elements(maxima);
          return;
        }
      }
      assert maxima[..|maxima|] == maxima;
      state := Active;
    }
  }

  /** One device's state from its facts. */
  method DeriveState(records: Records, facts: seq<Id>) returns (state: DeviceState)
    requires forall x | x in facts :: x in records
    ensures state == StateOf(records, Elements(facts))
  {
    var maxima := SortedMaxima(records, facts);
    forall m | m in maxima
      ensures m in records
    {
      assert m in Elements(maxima);
    }
    state := ReadFrontier(records, maxima);
  }

  /** The causal maxima of a list of facts, sorted by identifier. */
  method SortedMaxima(records: Records, facts: seq<Id>) returns (maxima: seq<Id>)
    ensures Elements(maxima) == MaximaOf(GraphOf(records), Elements(facts))
    ensures SortedBy(StringLess, maxima) && Distinct(maxima)
  {
    var values := set x | x in facts;
    assert values == Elements(facts);
    var frontier := Maxima(GraphOf(records), values, facts);
    var items := ListOf(frontier, facts);
    StringOrder(Elements(items));
    maxima := SortBy(items, StringLess);
  }

  /** The members of a set, each once, in the order `source` lists them. */
  method ListOf(members: set<Id>, source: seq<Id>) returns (items: seq<Id>)
    requires forall m | m in members :: m in source
    ensures Distinct(items) && forall x :: x in items <==> x in members
  {
    items := [];
    for i := 0 to |source|
      invariant Distinct(items) && forall x :: x in items <==> x in members && x in source[..i]
    {
      if source[i] in members && source[i] !in items {
        items := items + [source[i]];
      }
    }
    assert source[..|source|] == source;
  }

  /** Group one account's device facts by installation, in any iteration order. */
  method GroupFacts(records: Records, order: seq<Id>, account: string) returns (groups: map<string, seq<Id>>)
    requires IsOrderOf(order, records)
    ensures forall i :: i in groups <==> DeviceFacts(records, account, i) != {}
    ensures forall i | i in groups :: Elements(groups[i]) == DeviceFacts(records, account, i)
  {
    groups := map[];
    for k := 0 to |order|
      invariant forall i | i in groups :: groups[i] != []
      invariant forall i, x | i in groups && x in groups[i] :: x in DeviceFacts(records, account, i)
      invariant forall i, x | x in order[..k] && x in DeviceFacts(records, account, i) :: i in groups && x in groups[i]
    {
      var id := order[k];
      assert order[..k + 1] == order[..k] + [id];
      assert forall i | id in DeviceFacts(records, account, i) :: DeviceAt(records, id) == (account, i);
      if IsDeviceFact(records, id) && DeviceAt(records, id).0 == account {
        var installation := DeviceAt(records, id).1;
        groups := groups[installation := (if installation in groups then groups[installation] else []) + [id]];
      }
    }
    assert order[..|order|] == order;
    forall i | i in groups
      ensures DeviceFacts(records, account, i) != {}
    {
      assert groups[i][0] in DeviceFacts(records, account, i);
    }
    forall i | DeviceFacts(records, account, i) != {}
      ensures i in groups
    {
      var x :| x in DeviceFacts(records, account, i);
    }
  }

  /** What the devices of an account must be. */
  ghost predicate DevicesProjected(records: Records, account: string, creator: string, devices: map<string, DeviceState>) {
    && creator in devices
    && (DeviceFacts(records, account, creator) == {} ==> devices[creator] == Active)
    && (forall i | i in devices && i != creator :: DeviceFacts(records, account, i) != {})
    && (forall i | DeviceFacts(records, account, i) != {} ::
          i in devices && devices[i] == StateOf(records, DeviceFacts(records, account, i)))
  }

  /** Over an acyclic log, the devices projected as active are exactly those with a fact whose
      grants and revocations all lie strictly below some acceptance. */
  lemma ActiveDevices(records: Records, account: string, creator: string, devices: map<string, DeviceState>,
                      installation: string)
    requires Acyclic(GraphOf(records)) && DevicesProjected(records, account, creator, devices)
    requires installation != creator
    ensures var facts := DeviceFacts(records, account, installation);
            && (installation in devices && devices[installation] == Active <==> StateOf(records, facts) == Active)
            && (StateOf(records, facts) == Active <==>
                  && facts != {}
                  && forall x | x in facts && !IsAcceptance(records, x) ::
                       exists a :: a in facts && IsAcceptance(records, a) && Reaches(GraphOf(records), x, a))
  {
    ActiveMeansAccepted(records, DeviceFacts(records, account, installation));
  }

  /** Over an acyclic log, the devices projected as revoked are exactly those with a
      revocation that no fact of theirs follows, and the pending ones those whose last facts are
      neither that nor all acceptances. */
  lemma RevokedAndPendingDevices(records: Records, account: string, creator: string,
                                 devices: map<string, DeviceState>, installation: string)
    requires Acyclic(GraphOf(records)) && DevicesProjected(records, account, creator, devices)
    requires installation in devices && DeviceFacts(records, account, installation) != {}
    ensures var facts := DeviceFacts(records, account, installation);
            && (devices[installation] == Revoked <==> RevokedLast(records, facts))
            && (devices[installation] == Pending <==> !RevokedLast(records, facts) && Unaccepted(records, facts))
  {
    RevokedMeans(records, DeviceFacts(records, account, installation));
    PendingMeans(records, DeviceFacts(records, account, installation));
  }

  method ProjectDevices(records: Records, installations: seq<string>, groups: map<string, seq<Id>>,
                        account: string, creator: string)
      returns (devices: map<string, DeviceState>)
    requires forall i :: i in groups <==> DeviceFacts(records, account, i) != {}
    requires forall i | i in groups :: Elements(groups[i]) == DeviceFacts(records, account, i)
    requires IsOrderOf(installations, groups)
    ensures DevicesProjected(records, account, creator, devices)
  {
    ghost var derived := map i | i in groups :: StateOf(records, DeviceFacts(records, account, i));
    forall i | i in groups
      ensures Derived(records, groups[i], derived[i])
    {
      assert forall x | x in groups[i] :: x in Elements(groups[i]);
    }
    assert Elements(installations) == groups.Keys;
    devices := DeriveAll(records, installations, groups, creator, derived);
  }

  ghost predicate Derived(records: Records, group: seq<Id>, state: DeviceState) {
    (forall x | x in group :: x in records) && state == StateOf(records, Elements(group))
  }

  method DeriveGroup(records: Records, group: seq<Id>, ghost derived: DeviceState) returns (state: DeviceState)
    requires Derived(records, group, derived)
    ensures state == derived
  {
    state := DeriveState(records, group);
  }

  lemma ElementsGrow<T>(s: seq<T>, k: nat)
    requires k < |s|
    ensures Elements(s[..k + 1]) == Elements(s[..k]) + {s[k]}
  {
    assert s[..k + 1] == s[..k] + [s[k]];
  }

  method DeriveAll(records: Records, installations: seq<string>, groups: map<string, seq<Id>>, creator: string,
                   ghost derived: map<string, DeviceState>)
      returns (devices: map<string, DeviceState>)
    requires Elements(installations) == derived.Keys == groups.Keys
    requires forall i | i in groups :: Derived(records, groups[i], derived[i])
    ensures creator in devices
    ensures forall i | i in devices && i !in groups :: i == creator && devices[i] == Active
    ensures forall i | i in groups :: i in devices && devices[i] == derived[i]
  {
    devices := map[creator := Active];
    ghost var done: set<string> := {};
    for k := 0 to |installations|
      invariant creator in devices && done == Elements(installations[..k])
      invariant forall i | i in devices && i !in done :: i == creator && devices[i] == Active
      invariant forall i | i in done :: i in devices && devices[i] == derived[i]
    {
      var installation := installations[k];
      assert installation in Elements(installations);
      var state := DeriveGroup(records, groups[installation], derived[installation]);
      devices := devices[installation := state];
      done := done + {installation};
      ElementsGrow(installations, k);
    }
    assert installations[..|installations|] == installations;
  }

  /** The membership frontier for an account action: it exists exactly for the creator and
      for active devices. For a device it is the sorted set of its maximal facts, which are
      all acceptances. */
  method AccountActionParents(records: Records, accounts: map<string, Account>, order: seq<Id>,
                              account: string, installation: string)
      returns (parents: Option<seq<Id>>)
    requires IsOrderOf(order, records)
    ensures account !in accounts ==> parents == None
    ensures account in accounts && installation == accounts[account].creator ==>
              parents == Some([accounts[account].creation])
    ensures account in accounts && installation != accounts[account].creator ==>
              && (parents.Some? <==> StateOf(records, DeviceFacts(records, account, installation)) == Active)
              && (parents.Some? ==>
                    && Elements(parents.value) ==
                         MaximaOf(GraphOf(records), DeviceFacts(records, account, installation))
                    && (forall m | m in parents.value :: IsAcceptance(records, m))
                    && SortedBy(StringLess, parents.value) && Distinct(parents.value))
  {
    if account !in accounts {
      return None;
    }
    if installation == accounts[account].creator {
      return Some([accounts[account].creation]);
    }
    var facts: seq<Id> := [];
    for k := 0 to |order|
      invariant forall x :: x in facts <==> x in order[..k] && x in DeviceFacts(records, account, installation)
    {
      if IsDeviceFact(records, order[k]) && DeviceAt(records, order[k]) == (account, installation) {
        facts := facts + [order[k]];
      }
    }
    assert order[..|order|] == order;
    assert Elements(facts) == DeviceFacts(records, account, installation);
    var maxima := SortedMaxima(records, facts);
    parents := AllAccepted(records, maxima);
  }

  method AllAccepted(records: Records, maxima: seq<Id>) returns (parents: Option<seq<Id>>)
    ensures parents == if FrontierState(records, Elements(maxima)) == Active then Some(maxima) else None
  {
    if |maxima| == 0 {
      return None;
    }
    assert maxima[0] in Elements(maxima);
    for i := 0 to |maxima|
      invariant forall m | m in maxima[..i] :: IsAcceptance(records, m)
    {
      if !IsAcceptance(records, maxima[i]) {
        assert maxima[i] in Elements(maxima);
        return None;
      }
    }
    assert maxima[..|maxima|] == maxima;
    return Some(maxima);
  }

  ghost predicate IsCreation(records: Records, id: Id, account: string) {
    ProjectedAs(records, id, HumanAccountCreate) && AccountOf(records[id].event.content.payload).accountId == account
  }

  /** Of several creations that name one account, the one with the greatest identifier. */
  ghost predicate IsLastCreation(records: Records, id: Id, account: string) {
    IsCreation(records, id, account) && forall other | IsCreation(records, other, account) :: !StringLess(id, other)
  }

  /** The record identifiers in lexical order, whatever order the map lists them in. */
  method SortedRecordIds(records: Records, listing: seq<Id>) returns (ids: seq<Id>)
    requires IsOrderOf(listing, records)
    ensures IsOrderOf(ids, records) && SortedBy(StringLess, ids)
  {
    StringOrder(Elements(listing));
    ids := SortBy(listing, StringLess);
    assert Distinct(listing);
  }

  /** One account per account identifier that some projected creation names. The creation with
      the greatest identifier wins; its devices are projected. */
  method ProjectAccounts(records: Records, listing: seq<Id>, order: seq<Id>) returns (accounts: map<string, Account>)
    requires IsOrderOf(listing, records) && IsOrderOf(order, records)
    ensures forall a :: a in accounts <==> exists id :: IsCreation(records, id, a)
    ensures forall a | a in accounts ::
              && IsLastCreation(records, accounts[a].creation, a)
              && accounts[a].creator == AccountOf(records[accounts[a].creation].event.content.payload).creatorInstallation
              && DevicesProjected(records, a, accounts[a].creator, accounts[a].devices)
  {
    var sorted := SortedRecordIds(records, listing);
    var created := CreateAccounts(records, sorted);
    accounts := map[];
    var names := SomeOrder(created);
    for k := 0 to |names|
      invariant forall a :: a in accounts <==> a in names[..k]
      invariant forall a | a in accounts ::
        && accounts[a].creation == created[a].creation && accounts[a].creator == created[a].creator
        && DevicesProjected(records, a, accounts[a].creator, accounts[a].devices)
    {
      var devices := AccountDevices(records, order, names[k], created[names[k]].creator);
      accounts := accounts[names[k] := created[names[k]].(devices := devices)];
    }
    assert names[..|names|] == names;
  }

  method AccountDevices(records: Records, order: seq<Id>, account: string, creator: string)
      returns (devices: map<string, DeviceState>)
    requires IsOrderOf(order, records)
    ensures DevicesProjected(records, account, creator, devices)
  {
    var groups := GroupFacts(records, order, account);
    var installations := SomeOrder(groups);
    devices := ProjectDevices(records, installations, groups, account, creator);
  }

  method CreateAccounts(records: Records, sorted: seq<Id>) returns (created: map<string, Account>)
    requires IsOrderOf(sorted, records) && SortedBy(StringLess, sorted)
    ensures forall a :: a in created <==> exists id :: IsCreation(records, id, a)
    ensures forall a | a in created ::
              && IsLastCreation(records, created[a].creation, a)
              && created[a].creator == AccountOf(records[created[a].creation].event.content.payload).creatorInstallation
  {
    created := map[];
    for k := 0 to |sorted|
      invariant CreatedFrom(records, sorted[..k], created)
    {
      assert sorted[..k + 1] == sorted[..k] + [sorted[k]];
      created := AddCreation(records, sorted[..k], sorted[k], created);
    }
    assert sorted[..|sorted|] == sorted;
  }

  /** The accounts after reading the records of `seen`: each creation read is at or below the
      one its account holds. */
  ghost predicate CreatedFrom(records: Records, seen: seq<Id>, created: map<string, Account>) {
    && (forall a | a in created ::
          && IsCreation(records, created[a].creation, a)
          && created[a].creator == AccountOf(records[created[a].creation].event.content.payload).creatorInstallation)
    && (forall a, id | id in seen && IsCreation(records, id, a) :: a in created && !StringLess(created[a].creation, id))
  }

  method AddCreation(records: Records, ghost seen: seq<Id>, id: Id, created: map<string, Account>)
      returns (more: map<string, Account>)
    requires id in records && CreatedFrom(records, seen, created) && forall x | x in seen :: !StringLess(id, x)
    ensures CreatedFrom(records, seen + [id], more)
  {
    StringOrder({id});
    more := created;
    if ProjectedAs(records, id, HumanAccountCreate) {
      var account := AccountOf(records[id].event.content.payload);
      more := created[account.accountId :=
        Account(account.creatorInstallation, id, map[account.creatorInstallation := Active])];
    }
  }
}
