/**
 Ingesting events into the store: index the new events, close over what they may change,
 and patch only that part of the index. The claims compare the result with a full rebuild.
 */
module IncrementalIndex {
  import opened CausalGraph
  import opened EventRecords
  import opened Sorting
  import opened CausalIndex

  ghost function RowsOf(log: Log): Rows {
    Rows(EdgeRows(log), AuthorityRows(log), WaiterRows(log), ResourceRows(log))
  }

  function Restrict(log: Log, keep: set<Id>): Log {
    map id | id in log && id in keep :: log[id]
  }

  /** Some event of `ids` belongs to the resource. */
  ghost predicate Touched(log: Log, ids: set<Id>, r: Resource) {
    exists id :: id in ids && id in Members(log, r)
  }

  /** The rows stored for one resource. */
  ghost function RowsFor(table: set<(Resource, Id)>, r: Resource): set<Id> {
    set row | row in table && row.0 == r :: row.1
  }

  ghost function FrontierOn(log: Log, r: Resource): set<Id> {
    if DependencyOnly(r) then {} else MaximaOf(LogGraph(log), Members(log, r))
  }

  ghost function SupportOn(log: Log, r: Resource): set<Id> {
    if DependencyOnly(r) || r.kind == "event" then {} else Members(log, r)
  }

  /** The stored frontier and support of a resource are what a full rebuild would write. */
  ghost predicate Agrees(log: Log, frontiers: set<(Resource, Id)>, support: set<(Resource, Id)>, r: Resource) {
    RowsFor(frontiers, r) == FrontierOn(log, r) && RowsFor(support, r) == SupportOn(log, r)
  }

  // --------------------------------------------------------------------- closure facts

  /** What the impact rules say of the log: the set holds the children of its members, the
      events that name a member as an authority, and the events that share with a member a
      resource whose kind does not end in "-support". */
  lemma ImpactClosedMeans(log: Log, s: set<Id>)
    ensures ImpactClosed(RowsOf(log), s) <==>
            && (forall c, p | c in log && p in log[c].parents && p in s :: c in s)
            && (forall e, a | e in log && a in log[e].authorities && a in s :: e in s)
            && (forall x, y, r | x in s && x in log && y in log && r in log[x].resources && r in log[y].resources &&
                                 !(|r.kind| >= 8 && r.kind[|r.kind| - 8..] == "-support") :: y in s)
  {
    if ImpactClosed(RowsOf(log), s) {
      forall c, p | c in log && p in log[c].parents && p in s
        ensures c in s
      {
        assert (c, p) in EdgeRows(log) && c in Dependants(EdgeRows(log), s);
      }
      forall e, a | e in log && a in log[e].authorities && a in s
        ensures e in s
      {
        assert (e, a) in AuthorityRows(log) && e in Dependants(AuthorityRows(log), s);
      }
      forall x, y, r | x in s && x in log && y in log && r in log[x].resources && r in log[y].resources &&
                       !(|r.kind| >= 8 && r.kind[|r.kind| - 8..] == "-support")
        ensures y in s
      {
        assert (x, r) in ResourceRows(log) && (y, r) in ResourceRows(log);
        assert y in Sharers(ResourceRows(log), s);
      }
    }
  }

  /** What the support rules say of the log: the set holds the logged parents of its members,
      and the events that provide the account or installation a member rests on. */
  lemma SupportClosedMeans(log: Log, s: set<Id>)
    ensures SupportClosed(RowsOf(log), log.Keys, s) <==>
            && (forall c, p | c in s && c in log && p in log[c].parents && p in log :: p in s)
            && (forall x, y, id | x in s && x in log && y in log &&
                                  Resource("account-support", id) in log[x].resources &&
                                  Resource("account", id) in log[y].resources :: y in s)
            && (forall x, y, id | x in s && x in log && y in log &&
                                  Resource("installation-support", id) in log[x].resources &&
                                  Resource("installation", id) in log[y].resources :: y in s)
  {
    ProvidersMean(log, s, "account-support", "account");
    ProvidersMean(log, s, "installation-support", "installation");
    if SupportClosed(RowsOf(log), log.Keys, s) {
      SupportClosedIsParentClosed(log, s);
    }
  }

  lemma ProvidersMean(log: Log, s: set<Id>, need: string, provided: string)
    ensures Providers(ResourceRows(log), s, need, provided) <= s <==>
            forall x, y, id | x in s && x in log && y in log && Resource(need, id) in log[x].resources &&
                              Resource(provided, id) in log[y].resources :: y in s
  {
    if Providers(ResourceRows(log), s, need, provided) <= s {
      forall x, y, id | x in s && x in log && y in log && Resource(need, id) in log[x].resources &&
                        Resource(provided, id) in log[y].resources
        ensures y in s
      {
        assert (x, Resource(need, id)) in ResourceRows(log) && (y, Resource(provided, id)) in ResourceRows(log);
        assert y in Providers(ResourceRows(log), s, need, provided);
      }
    } else {
      var y :| y in Providers(ResourceRows(log), s, need, provided) && y !in s;
      var a, b :| a in ResourceRows(log) && b in ResourceRows(log) && a.0 in s && a.1.kind == need &&
                  b.1.kind == provided && a.1.id == b.1.id && b.0 == y;
      assert a.1 == Resource(need, a.1.id) && b.1 == Resource(provided, a.1.id);
    }
  }

  /** The rows of a store that agrees with its oracle: support lists the members of every
      resource except single events and dependencies, and the frontier lists those members with
      no other member causally after them. */
  lemma OracleRows(log: Log, frontiers: set<(Resource, Id)>, support: set<(Resource, Id)>, r: Resource, id: Id)
    requires Agrees(log, frontiers, support, r)
    ensures var bearing := !(|r.kind| >= 8 && r.kind[|r.kind| - 8..] == "-support");
            && ((r, id) in support <==> bearing && r.kind != "event" && id in log && r in log[id].resources)
            && ((r, id) in frontiers <==>
                  && bearing && id in log && r in log[id].resources
                  && forall y | y in log && r in log[y].resources && y != id :: !Reaches(LogGraph(log), id, y))
  {
    assert (r, id) in support <==> id in RowsFor(support, r);
    assert (r, id) in frontiers <==> id in RowsFor(frontiers, r);
    assert id in Members(log, r) <==> id in log && r in log[id].resources;
  }

  /** `keep` contains the parents of its members that are in the log. */
  ghost predicate ParentClosed(log: Log, keep: set<Id>) {
    forall c, p | c in keep && c in log && p in log[c].parents && p in log :: p in keep
  }

  lemma SupportClosedIsParentClosed(log: Log, s: set<Id>)
    requires SupportClosed(RowsOf(log), log.Keys, s)
    ensures ParentClosed(log, s)
  {
    forall c, p | c in s && c in log && p in log[c].parents && p in log
      ensures p in s
    {
      assert (c, p) in EdgeRows(log);
      assert p in PresentParents(EdgeRows(log), s, log.Keys);
    }
  }

  lemma {:induction false} PathStaysInside(log: Log, keep: set<Id>, p: seq<Id>, i: nat)
    requires ParentClosed(log, keep) && IsPath(LogGraph(log), p) && p[|p| - 1] in keep
    requires 0 < i < |p|
    ensures p[i] in keep && p[i] in log
    decreases |p| - i
  {
    assert p[i - 1] in Parents(LogGraph(log), p[i]);
    if i < |p| - 1 {
      PathStaysInside(log, keep, p, i + 1);
      assert p[i] in Parents(LogGraph(log), p[i + 1]);
    }
  }

  /** Every ancestor test on a kept event gives the same answer over the kept part as over
      the whole log. */
  lemma KeptReaches(log: Log, keep: set<Id>, a: Id, d: Id)
    requires ParentClosed(log, keep) && d in keep
    ensures Reaches(LogGraph(Restrict(log, keep)), a, d) <==> Reaches(LogGraph(log), a, d)
  {
    var g, inner := LogGraph(log), LogGraph(Restrict(log, keep));
    if Reaches(g, a, d) {
      var p :| PathBetween(g, p, a, d);
      forall i | 0 <= i < |p| - 1
        ensures p[i] in Parents(inner, p[i + 1])
      {
        PathStaysInside(log, keep, p, i + 1);
        assert p[i] in Parents(g, p[i + 1]);
      }
      assert PathBetween(inner, p, a, d);
    }
    if Reaches(inner, a, d) {
      var p :| PathBetween(inner, p, a, d);
      forall i | 0 <= i < |p| - 1
        ensures p[i] in Parents(g, p[i + 1])
      {
        assert p[i] in Parents(inner, p[i + 1]);
      }
      assert PathBetween(g, p, a, d);
    }
  }

  /** When every member of a resource is kept, its frontier over the kept part is its
      frontier over the whole log. */
  lemma CompleteFrontier(log: Log, keep: set<Id>, r: Resource)
    requires ParentClosed(log, keep) && Members(log, r) <= keep
    ensures Members(Restrict(log, keep), r) == Members(log, r)
    ensures FrontierOn(Restrict(log, keep), r) == FrontierOn(log, r)
  {
    assert Members(Restrict(log, keep), r) == Members(log, r);
    forall x, y | x in Members(log, r) && y in Members(log, r)
      ensures Reaches(LogGraph(Restrict(log, keep)), x, y) <==> Reaches(LogGraph(log), x, y)
    {
      KeptReaches(log, keep, x, y);
    }
  }

  /** A non-support resource touched by an impacted event has only impacted members. */
  lemma ImpactedIsComplete(log: Log, impacted: set<Id>, r: Resource)
    requires ImpactClosed(RowsOf(log), impacted) && !DependencyOnly(r) && Touched(log, impacted, r)
    ensures Members(log, r) <= impacted
  {
    var a :| a in impacted && a in Members(log, r);
    forall b | b in Members(log, r)
      ensures b in impacted
    {
      assert (a, r) in ResourceRows(log) && (b, r) in ResourceRows(log);
      assert b in Sharers(ResourceRows(log), impacted);
    }
  }

  lemma {:induction false} PathStaysImpacted(log: Log, impacted: set<Id>, p: seq<Id>, i: nat)
    requires ImpactClosed(RowsOf(log), impacted) && IsPath(LogGraph(log), p) && i < |p| && p[i] in impacted
    ensures p[|p| - 1] in impacted
    decreases |p| - i
  {
    if i < |p| - 1 {
      assert p[i] in Parents(LogGraph(log), p[i + 1]);
      assert (p[i + 1], p[i]) in EdgeRows(log);
      assert p[i + 1] in Dependants(EdgeRows(log), impacted);
      PathStaysImpacted(log, impacted, p, i + 1);
    }
  }

  /** A resource no impacted event touches has the same frontier and support before and
      after the new events arrive. */
  lemma UntouchedKeeps(prior: Log, log: Log, impacted: set<Id>, r: Resource)
    requires ImpactClosed(RowsOf(log), impacted) && !Touched(log, impacted, r)
    requires prior.Keys <= log.Keys && log.Keys - prior.Keys <= impacted
    requires forall id | id in prior :: log[id] == prior[id]
    ensures FrontierOn(prior, r) == FrontierOn(log, r) && SupportOn(prior, r) == SupportOn(log, r)
  {
    assert Members(prior, r) == Members(log, r);
    var g, before := LogGraph(log), LogGraph(prior);
    forall x, y | y in Members(log, r)
      ensures Reaches(before, x, y) <==> Reaches(g, x, y)
    {
      if Reaches(g, x, y) {
        var p :| PathBetween(g, p, x, y);
        forall i | 0 <= i < |p| - 1
          ensures p[i] in Parents(before, p[i + 1])
        {
          assert p[i] in Parents(g, p[i + 1]);
          if p[i + 1] in impacted {
            PathStaysImpacted(log, impacted, p, i + 1);
          }
        }
        assert PathBetween(before, p, x, y);
      }
      if Reaches(before, x, y) {
        var p :| PathBetween(before, p, x, y);
        forall i | 0 <= i < |p| - 1
          ensures p[i] in Parents(g, p[i + 1])
        {
          assert p[i] in Parents(before, p[i + 1]);
        }
        assert PathBetween(g, p, x, y);
      }
    }
  }

  // --------------------------------------------------------------- agreement with rebuild

  /** The patch rewrites the rows of every frontier-bearing resource it has a member of, as
      if the loaded part were the whole log, and leaves all other rows. */
  ghost predicate Patched(part: Log, frontiers: set<(Resource, Id)>, support: set<(Resource, Id)>,
                          frontiers': set<(Resource, Id)>, support': set<(Resource, Id)>)
  {
    forall r ::
      if !DependencyOnly(r) && Members(part, r) != {} then
        RowsFor(frontiers', r) == FrontierOn(part, r) && RowsFor(support', r) == SupportOn(part, r)
      else
        RowsFor(frontiers', r) == RowsFor(frontiers, r) && RowsFor(support', r) == RowsFor(support, r)
  }

  /** An event's own "event" resource belongs to no other event. */
  ghost predicate OwnEventResources(log: Log) {
    forall id, r | id in log && r in log[id].resources && r.kind == "event" :: r.id == id
  }

  /** The two closures, as the ingest step computes them for the events new in `log`. */
  ghost predicate IsImpact(prior: Log, log: Log, impacted: set<Id>, affected: set<Id>) {
    && ImpactClosed(RowsOf(log), impacted)
    && SupportClosed(RowsOf(log), log.Keys, affected)
    && impacted <= affected
    && prior.Keys <= log.Keys && log.Keys - prior.Keys <= impacted
    && forall id | id in prior :: log[id] == prior[id]
  }

  /** The closures are least: nothing is impacted or loaded that need not be. */
  ghost predicate IsLeastImpact(prior: Log, log: Log, impacted: set<Id>, affected: set<Id>) {
    && IsImpact(prior, log, impacted, affected)
    && (forall s | log.Keys - prior.Keys <= s && ImpactClosed(RowsOf(log), s) :: impacted <= s)
    && (forall s | impacted <= s && SupportClosed(RowsOf(log), log.Keys, s) :: affected <= s)
  }

  /** So there is only one such pair. */
  lemma LeastImpactIsUnique(prior: Log, log: Log, impacted: set<Id>, affected: set<Id>, impacted': set<Id>, affected': set<Id>)
    requires IsLeastImpact(prior, log, impacted, affected) && IsLeastImpact(prior, log, impacted', affected')
    ensures impacted == impacted' && affected == affected'
  {
    assert impacted <= impacted' && impacted' <= impacted;
    assert affected <= affected' && affected' <= affected;
  }

  /** When the patch agrees with the oracle. For a resource that some loaded event touches:
      exactly when all its members were loaded, which holds whenever an impacted event
      touches it. For any other resource: when the rows agreed before. */
  lemma PatchAgreement(prior: Log, log: Log, impacted: set<Id>, affected: set<Id>,
                       frontiers: set<(Resource, Id)>, support: set<(Resource, Id)>,
                       frontiers': set<(Resource, Id)>, support': set<(Resource, Id)>, r: Resource)
    requires OwnEventResources(log) && IsImpact(prior, log, impacted, affected)
    requires Patched(Restrict(log, affected), frontiers, support, frontiers', support')
    ensures !DependencyOnly(r) && Touched(log, impacted, r) ==> Agrees(log, frontiers', support', r)
    ensures !DependencyOnly(r) && Touched(log, affected, r) ==>
              (Agrees(log, frontiers', support', r) <==> Members(log, r) <= affected)
    ensures DependencyOnly(r) || !Touched(log, affected, r) ==>
              (Agrees(log, frontiers', support', r) <==> Agrees(prior, frontiers, support, r))
  {
    var part := Restrict(log, affected);
    SupportClosedIsParentClosed(log, affected);
    if DependencyOnly(r) {
      assert FrontierOn(log, r) == FrontierOn(prior, r) && SupportOn(log, r) == SupportOn(prior, r);
    } else if !Touched(log, affected, r) {
      LoadedMembers(log, affected, r);
      UntouchedKeeps(prior, log, impacted, r);
    } else {
      LoadedMembers(log, affected, r);
      if Members(log, r) <= affected {
        CompleteFrontier(log, affected, r);
      }
      if Touched(log, impacted, r) {
        ImpactedIsComplete(log, impacted, r);
      }
    }
  }

  /** What the loaded part knows of a resource. */
  lemma LoadedMembers(log: Log, affected: set<Id>, r: Resource)
    requires OwnEventResources(log)
    ensures Members(Restrict(log, affected), r) == Members(log, r) * affected
    ensures Touched(log, affected, r) <==> Members(Restrict(log, affected), r) != {}
    ensures Touched(log, affected, r) && r.kind == "event" ==> Members(log, r) <= affected
  {
    assert Members(Restrict(log, affected), r) == Members(log, r) * affected;
    if Touched(log, affected, r) {
      var id :| id in affected && id in Members(log, r);
      assert id in Members(Restrict(log, affected), r);
    }
    if Members(Restrict(log, affected), r) != {} {
      var id :| id in Members(Restrict(log, affected), r);
    }
  }

  /** Agreement on every resource survives an ingest exactly when no frontier-bearing
      resource is loaded only in part. */
  lemma FullAgreementSurvives(prior: Log, log: Log, impacted: set<Id>, affected: set<Id>,
                              frontiers: set<(Resource, Id)>, support: set<(Resource, Id)>,
                              frontiers': set<(Resource, Id)>, support': set<(Resource, Id)>)
    requires OwnEventResources(log) && IsImpact(prior, log, impacted, affected)
    requires Patched(Restrict(log, affected), frontiers, support, frontiers', support')
    requires forall r :: Agrees(prior, frontiers, support, r)
    ensures (forall r :: Agrees(log, frontiers', support', r)) <==>
            (forall r :: !DependencyOnly(r) && Touched(log, affected, r) ==> Members(log, r) <= affected)
  {
    forall r
      ensures Agrees(log, frontiers', support', r) <==>
              (!DependencyOnly(r) && Touched(log, affected, r) ==> Members(log, r) <= affected)
    {
      PatchAgreement(prior, log, impacted, affected, frontiers, support, frontiers', support', r);
    }
  }

  // --------------------------------------------------------------- a partly loaded resource

  function Basics(id: Id, author: string): set<Resource> {
    {Resource("event", id), Resource("installation-support", author)}
  }

  /** Installation y is created and creates account a. It invites installation z, which writes
      two events: a binding of peer z, and a grant that makes z a device of the account. Then a
      message to the account follows, on the authority of the account's creation. */
  const INSTALLATION := Fact([], [], Basics("i", "y") + {Resource("installation", "y")})
  const ACCOUNT := Fact([], [], Basics("c", "y") + {Resource("account", "a")})
  const BINDING := Fact([], [], Basics("b", "y") + {Resource("peer", "z"), Resource("installation", "z")})
  const DEVICE :=
    Fact(["c"], ["c"], Basics("d", "y") + {Resource("account-support", "a"), Resource("account", "a"),
                                           Resource("device", "a:z"), Resource("installation", "z")})
  const MESSAGE :=
    Fact(["c"], ["c"], Basics("m", "y") + {Resource("account-support", "a"), Resource("message", "m"),
                                           Resource("thread", "m")})

  const BEFORE: Log := map["i" := INSTALLATION, "c" := ACCOUNT, "b" := BINDING, "d" := DEVICE]
  const AFTER: Log := BEFORE["m" := MESSAGE]
  const LOADED: set<Id> := {"m", "c", "d", "i"}
  const SHARED := Resource("installation", "z")

  lemma WitnessEdges()
    ensures EdgeRows(AFTER) == {("m", "c"), ("d", "c")} && AuthorityRows(AFTER) == {("m", "c"), ("d", "c")}
  {
  }

  lemma NobodySharesWithTheMessage(id: Id, r: Resource)
    requires id in AFTER && r in MESSAGE.resources && r in AFTER[id].resources && !DependencyOnly(r)
    ensures id == "m"
  {
  }

  lemma OnlyTheMessageIsImpacted()
    ensures ImpactClosed(RowsOf(AFTER), {"m"})
  {
    WitnessEdges();
    forall x | x in Sharers(ResourceRows(AFTER), {"m"})
      ensures x == "m"
    {
      var a, b :| a in ResourceRows(AFTER) && b in ResourceRows(AFTER) && a.0 == "m" && a.1 == b.1 &&
                  !DependencyOnly(a.1) && b.0 == x;
      NobodySharesWithTheMessage(x, a.1);
    }
  }

  lemma AccountProviders(id: Id, r: Resource)
    requires id in AFTER && r in AFTER[id].resources && (r.kind == "account" || r == Resource("installation", "y"))
    ensures id in LOADED
  {
  }

  lemma SupportedByY(id: Id, r: Resource)
    requires id in AFTER && r in AFTER[id].resources && r.kind == "installation-support"
    ensures r.id == "y"
  {
  }

  lemma TheBindingIsNotLoaded()
    ensures SupportClosed(RowsOf(AFTER), AFTER.Keys, LOADED)
  {
    forall x, y, id | x in AFTER && y in AFTER && Resource("installation-support", id) in AFTER[x].resources &&
                      Resource("installation", id) in AFTER[y].resources
      ensures y in LOADED
    {
      SupportedByY(x, Resource("installation-support", id));
      AccountProviders(y, Resource("installation", id));
    }
    forall y, id | y in AFTER && Resource("account", id) in AFTER[y].resources
      ensures y in LOADED
    {
      AccountProviders(y, Resource("account", id));
    }
    OnlyParentIsTheAccount();
    SupportClosedMeans(AFTER, LOADED);
  }

  lemma OnlyParentIsTheAccount()
    ensures forall c, p | c in AFTER && p in AFTER[c].parents :: p == "c"
  {
  }

  lemma WitnessImpact()
    ensures IsLeastImpact(BEFORE, AFTER, {"m"}, LOADED)
  {
    OnlyTheMessageIsImpacted();
    TheBindingIsNotLoaded();
    assert BEFORE.Keys == {"i", "c", "b", "d"} && AFTER.Keys == {"i", "c", "b", "d", "m"};
    assert AFTER.Keys - BEFORE.Keys == {"m"};
    forall s | {"m"} <= s && SupportClosed(RowsOf(AFTER), AFTER.Keys, s)
      ensures LOADED <= s
    {
      LoadsAccountFacts(s);
      LoadsProvider(s, "m", "installation-support", "i", "installation", "y");
    }
  }

  lemma LoadsAccountFacts(s: set<Id>)
    requires "m" in s && SupportClosed(RowsOf(AFTER), AFTER.Keys, s)
    ensures "c" in s && "d" in s
  {
    LoadsProvider(s, "m", "account-support", "c", "account", "a");
    LoadsProvider(s, "m", "account-support", "d", "account", "a");
  }

  /** An event that needs a supporting resource loads every event that provides it. */
  lemma LoadsProvider(s: set<Id>, x: Id, need: string, y: Id, provided: string, id: string)
    requires SupportClosed(RowsOf(AFTER), AFTER.Keys, s) && x in s && x in AFTER && y in AFTER
    requires Resource(need, id) in AFTER[x].resources && Resource(provided, id) in AFTER[y].resources
    requires (need, provided) in {("account-support", "account"), ("installation-support", "installation")}
    ensures y in s
  {
    assert (x, Resource(need, id)) in ResourceRows(AFTER) && (y, Resource(provided, id)) in ResourceRows(AFTER);
    assert y in Providers(ResourceRows(AFTER), s, need, provided);
  }

  /** The condition can fail: ingesting the message loads the device grant but not the peer
      binding, both of which concern installation z, and whatever the rows of z were, the patch
      leaves them different from a rebuild's. */
  lemma PartlyLoadedResource(impacted: set<Id>, affected: set<Id>,
                             frontiers: set<(Resource, Id)>, support: set<(Resource, Id)>,
                             frontiers': set<(Resource, Id)>, support': set<(Resource, Id)>)
    requires IsLeastImpact(BEFORE, AFTER, impacted, affected)
    requires Patched(Restrict(AFTER, affected), frontiers, support, frontiers', support')
    ensures !Agrees(AFTER, frontiers', support', SHARED)
  {
    WitnessImpact();
    LeastImpactIsUnique(BEFORE, AFTER, impacted, affected, {"m"}, LOADED);
    WitnessMembers();
    MissingMemberDisagrees(BEFORE, AFTER, impacted, affected, frontiers, support, frontiers', support', SHARED, "d", "b");
  }

  lemma WitnessMembers()
    ensures OwnEventResources(AFTER) && !DependencyOnly(SHARED)
    ensures "d" in Members(AFTER, SHARED) && "b" in Members(AFTER, SHARED)
  {
  }

  lemma MissingMemberDisagrees(prior: Log, log: Log, impacted: set<Id>, affected: set<Id>,
                               frontiers: set<(Resource, Id)>, support: set<(Resource, Id)>,
                               frontiers': set<(Resource, Id)>, support': set<(Resource, Id)>, r: Resource, x: Id, y: Id)
    requires OwnEventResources(log) && IsImpact(prior, log, impacted, affected) && !DependencyOnly(r)
    requires Patched(Restrict(log, affected), frontiers, support, frontiers', support')
    requires x in Members(log, r) && x in affected && y in Members(log, r) && y !in affected
    ensures !Agrees(log, frontiers', support', r)
  {
    assert Touched(log, affected, r);
    PatchAgreement(prior, log, impacted, affected, frontiers, support, frontiers', support', r);
  }

  // ------------------------------------------------------------------------- the store

  lemma FreshAggregatesAgree(log: Log, frontiers: set<(Resource, Id)>, support: set<(Resource, Id)>)
    requires Patched(log, {}, {}, frontiers, support)
    ensures forall r :: Agrees(log, frontiers, support, r)
  {
    forall r
      ensures Agrees(log, frontiers, support, r)
    {
      assert RowsFor({}, r) == {};
      if Members(log, r) == {} {
        assert FrontierOn(log, r) == {} && SupportOn(log, r) == {};
      }
    }
  }

  /** While a batch is being indexed: every missing parent has its waiter row, and a waiter
      row whose parent is present is stale only because that parent is in the batch. */
  ghost predicate WaitersPending(log: Log, seeds: seq<Id>, waiters: set<(Id, Id)>) {
    && WaiterRows(log) <= waiters
    && forall row | row in waiters :: row.1 in log && row.0 in log[row.1].parents && (row.0 in log ==> row.0 in seeds)
  }

  /** The waiter rows the patch leaves: recomputed for loaded events, kept for the rest. */
  ghost function PatchedWaiters(log: Log, affected: set<Id>, waiters: set<(Id, Id)>): set<(Id, Id)> {
    (set row | row in waiters && row.1 !in affected) + (set row | row in WaiterRows(log) && row.1 in affected)
  }

  /** Stale waiter rows belong to impacted events, so the patch repairs them all. */
  lemma WaitersRepaired(log: Log, rows: Rows, seeds: seq<Id>, affected: set<Id>)
    requires WaitersPending(log, seeds, rows.waiters) && Seeded(rows, seeds, affected)
    ensures PatchedWaiters(log, affected, rows.waiters) == WaiterRows(log)
  {
    forall row | row in rows.waiters && row.0 in seeds
      ensures row.1 in affected
    {
      assert row.1 in Waiting(rows.waiters, row.0);
    }
  }

  class Store {
    var log: Log
    var rows: Rows
    var frontiers: set<(Resource, Id)>
    var support: set<(Resource, Id)>

    constructor ()
      ensures log == map[] && rows == RowsOf(log) && frontiers == {} && support == {}
    {
      log, rows, frontiers, support := map[], Rows({}, {}, {}, {}), {}, {};
    }

    /** The offline oracle: clear every table and write it again from the whole log. */
    method Rebuild(order: seq<Id>)
      requires IsOrderOf(order, log)
      modifies this`rows, this`frontiers, this`support
      ensures rows == RowsOf(log) && forall r :: Agrees(log, frontiers, support, r)
    {
      frontiers, support := {}, {};
      WriteRows(order);
      WriteAggregates(log, order);
      FreshAggregatesAgree(log, frontiers, support);
    }

    method WriteRows(order: seq<Id>)
      requires IsOrderOf(order, log)
      modifies this`rows
      ensures rows == RowsOf(log)
    {
      rows := Rows({}, {}, {}, {});
      for i := 0 to |order|
        invariant rows.edges == set c, p | c in order[..i] && p in log[c].parents :: (c, p)
        invariant rows.authority == set e, a | e in order[..i] && a in log[e].authorities :: (e, a)
        invariant rows.waiters == set c, p | c in order[..i] && p in log[c].parents && p !in log :: (p, c)
        invariant rows.resources == set id, r | id in order[..i] && r in log[id].resources :: (id, r)
      {
        AddRows(order[i], log[order[i]], log.Keys);
        assert order[..i + 1] == order[..i] + [order[i]];
      }
      assert order[..|order|] == order;
    }

    /** Index one event: its edges, authorities and resources, and a waiter row for every
        parent that is not in the log yet. */
    method AddRows(id: Id, fact: Fact, present: set<Id>)
      modifies this`rows
      ensures rows.edges == old(rows.edges) + set p | p in fact.parents :: (id, p)
      ensures rows.authority == old(rows.authority) + set a | a in fact.authorities :: (id, a)
      ensures rows.waiters == old(rows.waiters) + set p | p in fact.parents && p !in present :: (p, id)
      ensures rows.resources == old(rows.resources) + set r | r in fact.resources :: (id, r)
    {
      AddParentRows(id, fact.parents, present);
      for i := 0 to |fact.authorities|
        invariant rows == old(rows).(edges := rows.edges, waiters := rows.waiters, authority := rows.authority)
        invariant rows.edges == old(rows.edges) + set p | p in fact.parents :: (id, p)
        invariant rows.waiters == old(rows.waiters) + set p | p in fact.parents && p !in present :: (p, id)
        invariant rows.authority == old(rows.authority) + set a | a in fact.authorities[..i] :: (id, a)
      {
        rows := rows.(authority := rows.authority + {(id, fact.authorities[i])});
      }
      assert fact.authorities[..|fact.authorities|] == fact.authorities;
      AddResourceRows(id, fact.resources);
    }

    method AddResourceRows(id: Id, resources: set<Resource>)
      modifies this`rows
      ensures rows == old(rows).(resources := old(rows.resources) + set r | r in resources :: (id, r))
    {
      var left := resources;
      while left != {}
        invariant left <= resources
        invariant rows == old(rows).(resources := old(rows.resources) + set r | r in resources - left :: (id, r))
        decreases |left|
      {
        var r :| r in left;
        rows := rows.(resources := rows.resources + {(id, r)});
        left := left - {r};
      }
    }

    method AddParentRows(id: Id, parents: seq<Id>, present: set<Id>)
      modifies this`rows
      ensures rows == old(rows).(edges := rows.edges, waiters := rows.waiters)
      ensures rows.edges == old(rows.edges) + set p | p in parents :: (id, p)
      ensures rows.waiters == old(rows.waiters) + set p | p in parents && p !in present :: (p, id)
    {
      for i := 0 to |parents|
        invariant rows == old(rows).(edges := rows.edges, waiters := rows.waiters)
        invariant rows.edges == old(rows.edges) + set p | p in parents[..i] :: (id, p)
        invariant rows.waiters == old(rows.waiters) + set p | p in parents[..i] && p !in present :: (p, id)
      {
        rows := rows.(edges := rows.edges + {(id, parents[i])});
        if parents[i] !in present {
          rows := rows.(waiters := rows.waiters + {(parents[i], id)});
        }
        assert parents[..i + 1] == parents[..i] + [parents[i]];
      }
      assert parents[..|parents|] == parents;
    }

    /** Replace the frontier and support rows of every frontier-bearing resource of `part`. */
    method WriteAggregates(part: Log, order: seq<Id>)
      requires IsOrderOf(order, part)
      modifies this`frontiers, this`support
      ensures Patched(part, old(frontiers), old(support), frontiers, support)
    {
      var children := BuildChildren(part, order);
      var groups := GroupByResource(part, order);
      var resources := SomeOrder(groups);
      ghost var f, s := frontiers, support;
      for k := 0 to |resources|
        invariant forall r | r in resources[..k] ::
          RowsFor(frontiers, r) == FrontierOn(part, r) && RowsFor(support, r) == SupportOn(part, r)
        invariant forall r | r !in resources[..k] ::
          RowsFor(frontiers, r) == RowsFor(f, r) && RowsFor(support, r) == RowsFor(s, r)
      {
        var r := resources[k];
        var members := set x | x in groups[r];
        assert members == Elements(groups[r]);
        var frontier := FrontierOf(members, children, groups[r], LogGraph(part));
        ReplaceFor(r, frontier, if r.kind != "event" then members else {});
        assert resources[..k + 1] == resources[..k] + [r];
      }
      assert resources[..|resources|] == resources;
    }

    method ReplaceFor(r: Resource, frontier: set<Id>, members: set<Id>)
      modifies this`frontiers, this`support
      ensures RowsFor(frontiers, r) == frontier && RowsFor(support, r) == members
      ensures forall q | q != r ::
                RowsFor(frontiers, q) == RowsFor(old(frontiers), q) && RowsFor(support, q) == RowsFor(old(support), q)
    {
      ghost var f, s := frontiers, support;
      frontiers := (set row | row in frontiers && row.0 != r) + (set id | id in frontier :: (r, id));
      support := (set row | row in support && row.0 != r) + (set id | id in members :: (r, id));
    }

    /** Append the new events of a batch and index them; events already in the log are
        skipped. */
    method AppendBatch(additions: seq<(Id, Fact)>) returns (seeds: seq<Id>)
      requires rows == RowsOf(log)
      modifies this`log, this`rows
      ensures old(log).Keys <= log.Keys && forall id | id in old(log) :: log[id] == old(log)[id]
      ensures forall id :: id in seeds <==> id in log && id !in old(log)
      ensures forall a | a in additions :: a.0 in log
      ensures forall id | id in seeds :: (id, log[id]) in additions
      ensures rows == RowsOf(log).(waiters := rows.waiters) && WaitersPending(log, seeds, rows.waiters)
    {
      seeds := [];
      for i := 0 to |additions|
        invariant old(log).Keys <= log.Keys && forall id | id in old(log) :: log[id] == old(log)[id]
        invariant forall id :: id in seeds <==> id in log && id !in old(log)
        invariant forall a | a in additions[..i] :: a.0 in log
        invariant forall id | id in seeds :: (id, log[id]) in additions
        invariant rows == RowsOf(log).(waiters := rows.waiters) && WaitersPending(log, seeds, rows.waiters)
      {
        var (id, fact) := additions[i];
        assert additions[i] in additions;
        if id !in log {
          AppendOne(id, fact, seeds);
          seeds := seeds + [id];
        }
      }
      assert additions[..|additions|] == additions;
    }

    method AppendOne(id: Id, fact: Fact, ghost seeds: seq<Id>)
      requires id !in log
      requires rows == RowsOf(log).(waiters := rows.waiters) && WaitersPending(log, seeds, rows.waiters)
      modifies this`log, this`rows
      ensures log == old(log)[id := fact]
      ensures rows == RowsOf(log).(waiters := rows.waiters) && WaitersPending(log, seeds + [id], rows.waiters)
    {
      log := log[id := fact];
      AddRows(id, fact, log.Keys);
      assert rows.edges == EdgeRows(log);
      assert rows.authority == AuthorityRows(log);
      assert rows.resources == ResourceRows(log);
    }

    /** Patch the index from the loaded events alone. */
    method Patch(affected: set<Id>)
      requires forall row | row in rows.waiters :: row.1 in log
      modifies this`rows, this`frontiers, this`support
      ensures rows == old(rows).(waiters := PatchedWaiters(log, affected, old(rows.waiters)))
      ensures Patched(Restrict(log, affected), old(frontiers), old(support), frontiers, support)
    {
      var part := Restrict(log, affected);
      var order := SomeOrder(part);
      ghost var start := rows;
      for i := 0 to |order|
        invariant rows == start.(waiters := rows.waiters)
        invariant forall row :: row in rows.waiters <==>
          if row.1 in order[..i] then row in WaiterRows(log) else row in start.waiters
        invariant frontiers == old(frontiers) && support == old(support)
      {
        var id := order[i];
        assert id in part;
        rows := rows.(waiters := (set row | row in rows.waiters && row.1 != id) +
                                 set p | p in log[id].parents && p !in log :: (p, id));
        assert order[..i + 1] == order[..i] + [id];
      }
      assert order[..|order|] == order;
      assert rows.waiters == PatchedWaiters(log, affected, start.waiters);
      WriteAggregates(part, order);
    }

    /** One ingest: the new events of the batch join the log, the structural rows equal a full
        rebuild's again, and the frontier and support rows are those of the patch over the
        least sets of impacted and affected events, and no others. */
    method Ingest(additions: seq<(Id, Fact)>) returns (ghost impacted: set<Id>, ghost affected: set<Id>)
      requires rows == RowsOf(log)
      modifies this
      ensures forall a | a in additions :: a.0 in log
      ensures forall id | id in log && id !in old(log) :: (id, log[id]) in additions
      ensures rows == RowsOf(log)
      ensures IsLeastImpact(old(log), log, impacted, affected)
      ensures Patched(Restrict(log, affected), old(frontiers), old(support), frontiers, support)
    {
      ghost var prior := log;
      var seeds := AppendBatch(additions);
      if seeds == [] {
        impacted, affected := {}, {};
        assert log == prior;
        NothingNew(log, rows.waiters, frontiers, support);
        return;
      }
      var impact := Impacted(rows, seeds);
      var loaded := Affected(rows, impact, log.Keys);
      WaitersRepaired(log, rows, seeds, loaded);
      LeastByNewEvents(prior, log, rows, seeds, impact, loaded);
      Patch(loaded);
      impacted, affected := impact, loaded;
    }
  }

  /** Waiters of a new event are its children, so the seeds alone determine the closure. */
  lemma LeastByNewEvents(prior: Log, log: Log, rows: Rows, seeds: seq<Id>, impacted: set<Id>, affected: set<Id>)
    requires prior.Keys <= log.Keys && forall id | id in prior :: log[id] == prior[id]
    requires forall id :: id in seeds <==> id in log && id !in prior
    requires rows == RowsOf(log).(waiters := rows.waiters) && WaitersPending(log, seeds, rows.waiters)
    requires Seeded(rows, seeds, impacted) && ImpactClosed(rows, impacted)
    requires forall s | Seeded(rows, seeds, s) && ImpactClosed(rows, s) :: impacted <= s
    requires impacted <= affected && SupportClosed(rows, log.Keys, affected)
    requires forall s | impacted <= s && SupportClosed(rows, log.Keys, s) :: affected <= s
    ensures IsLeastImpact(prior, log, impacted, affected)
  {
    forall s | log.Keys - prior.Keys <= s && ImpactClosed(RowsOf(log), s)
      ensures impacted <= s
    {
      forall id, w | id in seeds && w in Waiting(rows.waiters, id)
        ensures w in s
      {
        assert (w, id) in EdgeRows(log);
        assert w in Dependants(EdgeRows(log), s);
      }
      assert Seeded(rows, seeds, s) && ImpactClosed(rows, s);
    }
    forall s | impacted <= s && SupportClosed(RowsOf(log), log.Keys, s)
      ensures affected <= s
    {
      assert SupportClosed(rows, log.Keys, s);
    }
  }

  /** The log after ingesting four new events into an empty one, and one more. */
  lemma LogOfFour(log: Log, i: Fact, c: Fact, b: Fact, d: Fact)
    requires "i" in log && "c" in log && "b" in log && "d" in log
    requires forall id | id in log :: (id, log[id]) in [("i", i), ("c", c), ("b", b), ("d", d)]
    ensures log == map["i" := i, "c" := c, "b" := b, "d" := d]
  {
  }

  lemma LogOfOneMore(prior: Log, log: Log, m: Fact)
    requires "m" !in prior && "m" in log && prior.Keys <= log.Keys && forall id | id in prior :: log[id] == prior[id]
    requires forall id | id in log && id !in prior :: (id, log[id]) in [("m", m)]
    ensures log == prior["m" := m]
  {
  }

  method IngestBefore() returns (store: Store)
    ensures fresh(store) && store.log == BEFORE && store.rows == RowsOf(BEFORE)
    ensures forall r :: Agrees(store.log, store.frontiers, store.support, r)
  {
    store := new Store();
    var additions := [("i", INSTALLATION), ("c", ACCOUNT), ("b", BINDING), ("d", DEVICE)];
    ghost var impacted, affected := store.Ingest(additions);
    assert additions[0] in additions && additions[1] in additions && additions[2] in additions && additions[3] in additions;
    LogOfFour(store.log, INSTALLATION, ACCOUNT, BINDING, DEVICE);
    assert store.log.Keys <= affected;
    assert Restrict(store.log, affected) == store.log;
    FreshAggregatesAgree(store.log, store.frontiers, store.support);
  }

  /** A store that agrees with its oracle on every resource, ingests one message, and no longer
      does. `frontiers` and `support` are its rows before the message. */
  method IngestUntilStale()
      returns (store: Store, ghost frontiers: set<(Resource, Id)>, ghost support: set<(Resource, Id)>)
    ensures forall r :: Agrees(BEFORE, frontiers, support, r)
    ensures fresh(store) && store.log == AFTER && store.rows == RowsOf(AFTER)
    ensures exists impacted, affected ::
              && IsLeastImpact(BEFORE, AFTER, impacted, affected)
              && Patched(Restrict(AFTER, affected), frontiers, support, store.frontiers, store.support)
    ensures !Agrees(store.log, store.frontiers, store.support, SHARED)
  {
    store := IngestBefore();
    frontiers, support := store.frontiers, store.support;
    var additions := [("m", MESSAGE)];
    ghost var impacted, affected := store.Ingest(additions);
    assert additions[0] in additions;
    LogOfOneMore(BEFORE, store.log, MESSAGE);
    PartlyLoadedResource(impacted, affected, frontiers, support, store.frontiers, store.support);
  }

  lemma NothingNew(log: Log, waiters: set<(Id, Id)>, frontiers: set<(Resource, Id)>, support: set<(Resource, Id)>)
    requires WaitersPending(log, [], waiters)
    ensures waiters == WaiterRows(log)
    ensures IsLeastImpact(log, log, {}, {}) && Patched(Restrict(log, {}), frontiers, support, frontiers, support)
  {
    assert Restrict(log, {}) == map[];
  }
}
