/**
 What the final statuses say about who acted: a domain event stands only under a grant, a
 membership or a key that itself stands, read off the projection that the stage leaves.
 */
module AccessMeaning {
  import opened CausalGraph
  import opened EventRecords
  import opened Usability
  import opened Authorization
  import opened Classification

  /** The event's message-state target and its finally projected thread root are at or below it. */
  ghost predicate Anchored(after: Records, e: Event) {
    && (IsMessageState(e.content.kind) ==> AtOrBelow(after, TargetOf(e.content.payload), e.id))
    && (e.content.threadId != "" ==>
          && IsProjected(after, e.content.threadId)
          && (after[e.content.threadId].event.content.kind == Question ||
              after[e.content.threadId].event.content.kind == Message)
          && AtOrBelow(after, e.content.threadId, e.id))
  }

  /** In every order, a peer-addressed domain event ends projected exactly when it came in
      projected on usable parents, its one authority is a finally projected grant that covers it,
      and it is anchored. */
  lemma PeerEventsStandUnderGrants(policy: Policy, access: Revocations, records: Records, order: seq<Id>, id: Id)
    requires WellFormed(records) && id in records && IsDomain(records[id].event.content.kind)
    requires records[id].event.content.scope == PeerAddressed
    ensures var after := DomainOutcome(policy, access, records, order);
            var e := records[id].event;
            after[id].status == Projected <==>
              && records[id].status == Projected && ParentsUsable(records, e)
              && (exists grant :: e.content.authorities == [grant] && GrantCovers(after, access, grant, e))
              && Anchored(after, e)
  {
    var after := DomainOutcome(policy, access, records, order);
    OutcomeJustifiesItself(policy, access, records, order, id);
    AuthorizedExactly(policy, after, access, records[id].event);
  }

  /** In every order, an account-addressed domain event ends projected exactly when it came in
      projected on usable parents, each authority it names is the finally projected creation of
      its account by its signer or the finally projected acceptance of its signer's device that
      no concurrent or earlier revocation undercuts, it is routed fairly and it is anchored. */
  lemma AccountEventsStandOnMembership(policy: Policy, access: Revocations, records: Records, order: seq<Id>, id: Id)
    requires WellFormed(records) && id in records && IsDomain(records[id].event.content.kind)
    requires records[id].event.content.scope == AccountAddressed
    ensures var after := DomainOutcome(policy, access, records, order);
            var e := records[id].event;
            after[id].status == Projected <==>
              && records[id].status == Projected && ParentsUsable(records, e)
              && e.content.authorities != []
              && (forall a | a in e.content.authorities :: SignedByCreator(after, a, e) || SignedByMember(after, a, e))
              && RoutedFairly(policy, after, e)
              && Anchored(after, e)
  {
    var after := DomainOutcome(policy, access, records, order);
    OutcomeJustifiesItself(policy, access, records, order, id);
    AuthorizedExactly(policy, after, access, records[id].event);
  }

  /** A private domain event ends projected exactly when the local root key signed it for this
      installation (and it came in projected, on usable parents, and is anchored); a public one
      never does. */
  lemma PrivateEventsStandOnTheRootKey(policy: Policy, access: Revocations, records: Records, order: seq<Id>, id: Id)
    requires WellFormed(records) && id in records && IsDomain(records[id].event.content.kind)
    requires records[id].event.content.scope == InstallationPrivate || records[id].event.content.scope == Public
    ensures var after := DomainOutcome(policy, access, records, order);
            var e := records[id].event;
            after[id].status == Projected <==>
              && records[id].status == Projected && ParentsUsable(records, e)
              && e.content.scope == InstallationPrivate
              && e.content.installation == policy.installation && e.signer == policy.rootKey
              && Anchored(after, e)
  {
    var after := DomainOutcome(policy, access, records, order);
    OutcomeJustifiesItself(policy, access, records, order, id);
    AuthorizedExactly(policy, after, access, records[id].event);
  }

  /** Nobody speaks for a mailbox or an account without standing: a projected peer-addressed
      event has a grant from its recipient for that very mailbox and signer, and a projected
      account-addressed one is signed by the creator or by an accepted device that nothing
      undercuts. */
  lemma NobodyActsWithoutStanding(policy: Policy, access: Revocations, records: Records, order: seq<Id>, id: Id)
    requires WellFormed(records) && id in records && IsDomain(records[id].event.content.kind)
    requires DomainOutcome(policy, access, records, order)[id].status == Projected
    ensures var after := DomainOutcome(policy, access, records, order);
            var e := records[id].event;
            && (e.content.scope == PeerAddressed ==>
                  exists grant :: GrantCovers(after, access, grant, e))
            && (e.content.scope == AccountAddressed ==>
                  exists a :: SignedByCreator(after, a, e) || SignedByMember(after, a, e))
  {
    var after := DomainOutcome(policy, access, records, order);
    var e := records[id].event;
    OutcomeJustifiesItself(policy, access, records, order, id);
    AuthorizedExactly(policy, after, access, e);
    if e.content.scope == AccountAddressed {
      var a := e.content.authorities[0];
      assert SignedByCreator(after, a, e) || SignedByMember(after, a, e);
    }
  }
}
