/**
 Who may author a domain event: installation-private events by the local root key,
 peer-addressed events under an unrevoked mailbox grant, account-addressed events under
 account authorities that no concurrent or later revocation undercuts.
 */
module Authorization {
  import opened CausalGraph
  import opened EventRecords
  import opened Options

  /** The revocation events recorded for each projected mailbox grant. */
  type Revocations = map<Id, seq<Id>>

  predicate SignedByLocalRoot(policy: Policy, e: Event) {
    e.content.installation == policy.installation && e.signer == policy.rootKey
  }

  predicate MailboxGrantAuthorizes(grant: Event, action: Event) {
    && grant.content.kind == MailboxAccessGrant
    && action.content.sender.Some? && action.content.recipient.Some?
    && grant.content.payload.AccessPayload?
    && var payload := grant.content.payload.grant;
    && action.content.scope == PeerAddressed
    && action.content.installation == payload.granteeInstallation
    && action.signer == payload.granteeSigner
    && action.content.sender.value.installation == payload.granteeInstallation
    && action.content.recipient.value.installation == grant.content.installation
    && action.content.recipient.value.mailbox == payload.mailbox
  }

  /** One named authority admits `item`: the account's creation by the signer itself, or
      the signer's device acceptance with every projected revocation of that device
      causally after `item`. */
  ghost predicate AuthorityAdmits(records: Records, item: Event, authority: Id)
    requires item.content.audience.Some?
  {
    && IsProjected(records, authority)
    && var content := records[authority].event.content;
    if content.kind == HumanAccountCreate then
      && AccountOf(content.payload).accountId == item.content.audience.value
      && AccountOf(content.payload).creatorInstallation == item.content.installation
      && AccountOf(content.payload).creatorSigner == item.signer
    else
      && content.kind == HumanDeviceAccept
      && DeviceOf(content.payload).accountId == item.content.audience.value
      && DeviceOf(content.payload).installation == item.content.installation
      && DeviceOf(content.payload).signer == item.signer
      && forall c | ProjectedAs(records, c, HumanDeviceRevoke) &&
                    DeviceOf(records[c].event.content.payload) == DeviceOf(content.payload) ::
           AtOrBelow(records, item.id, c)
  }

  ghost predicate AccountAuthorityMatches(records: Records, item: Event) {
    && item.content.audience.Some?
    && item.content.authorities != []
    && forall a | a in item.content.authorities :: AuthorityAdmits(records, item, a)
  }

  /** A reply or cancellation, whose authorization reads the status of its thread root. */
  predicate IsReply(e: Event) {
    e.content.scope == AccountAddressed && (e.content.kind == Answer || e.content.kind == ThreadCancel)
  }

  predicate OpenQuestion(records: Records, item: Event)
    requires item.content.audience.Some?
  {
    && ProjectedAs(records, item.content.threadId, Question)
    && var root := records[item.content.threadId].event.content;
    && root.audience == item.content.audience
    && root.sender.Some?
  }

  predicate AccountRouteAllowed(policy: Policy, records: Records, item: Event)
    requires item.content.audience.Some?
  {
    var content := item.content;
    match content.kind
    case Question =>
      && content.sender.Some? && content.recipient.None?
      && content.sender.value.installation == content.installation
      && content.sender.value.mailbox != policy.humanMailbox
    case Message =>
      && content.sender.Some? && content.recipient.Some?
      && content.sender.value.installation == content.installation
      && content.sender.value.mailbox == policy.humanMailbox
      && content.recipient.value.mailbox != policy.humanMailbox
    case Answer =>
      && content.sender.Some? && content.recipient.Some?
      && content.sender.value.installation == content.installation
      && content.sender.value.mailbox == policy.humanMailbox
      && OpenQuestion(records, item)
      && records[content.threadId].event.content.sender == content.recipient
    case ThreadCancel =>
      && OpenQuestion(records, item)
      && content.sender.Some?
      && records[content.threadId].event.content.sender == content.sender
    case MessageArchive | MessageRestore | MessageReject =>
      && content.sender.Some?
      && content.sender.value.installation == content.installation
      && content.sender.value.mailbox == policy.humanMailbox
      && TargetOf(content.payload) in records
      && records[TargetOf(content.payload)].event.content.audience == content.audience
    case ProjectEvent => true
    case HarnessActivity =>
      && content.sender.Some? && content.recipient.None?
      && content.sender.value.installation == content.installation
      && content.sender.value.mailbox != policy.humanMailbox
    case ProjectCommand | ProjectResult =>
      && content.sender.Some? && content.recipient.Some?
      && content.sender.value.mailbox == policy.humanMailbox
      && content.recipient.value.mailbox == policy.humanMailbox
    case _ => false
  }

  ghost predicate PeerAuthorized(records: Records, access: Revocations, e: Event) {
    && |e.content.authorities| == 1
    && var grant := e.content.authorities[0];
    && ProjectedAs(records, grant, MailboxAccessGrant)
    && MailboxGrantAuthorizes(records[grant].event, e)
    && grant in access
    && forall r | r in access[grant] :: AtOrBelow(records, e.id, r)
  }

  ghost predicate Authorized(policy: Policy, records: Records, access: Revocations, e: Event) {
    match e.content.scope
    case AccountAddressed => AccountAuthorityMatches(records, e) && AccountRouteAllowed(policy, records, e)
    case InstallationPrivate => SignedByLocalRoot(policy, e)
    case PeerAddressed => PeerAuthorized(records, access, e)
    case Public => false
  }

  /** Authorization reads the statuses of authority events and, for replies, whether the
      thread root is still projected; no other domain status matters. */
  lemma AuthorizedReads(policy: Policy, a: Records, b: Records, access: Revocations, e: Event)
    requires SameEvents(a, b)
    requires forall x | x in a && !IsDomain(a[x].event.content.kind) :: a[x].status == b[x].status
    requires IsReply(e) ==> (IsProjected(a, e.content.threadId) <==> IsProjected(b, e.content.threadId))
    ensures Authorized(policy, a, access, e) <==> Authorized(policy, b, access, e)
  {
    SameGraph(a, b);
    if e.content.scope == AccountAddressed && e.content.audience.Some? {
      forall x
        ensures AuthorityAdmits(a, e, x) <==> AuthorityAdmits(b, e, x)
      {
        assert forall c :: ProjectedAs(a, c, HumanDeviceRevoke) <==> ProjectedAs(b, c, HumanDeviceRevoke);
      }
      assert AccountRouteAllowed(policy, a, e) <==> AccountRouteAllowed(policy, b, e);
    }
  }

  // ------------------------------------------------------------- what authorization means

  /** A projected grant of the recipient's installation opens exactly the recipient's mailbox to
      the event's installation and signer, and every revocation listed for it is the event
      itself or comes causally after it. */
  ghost predicate GrantCovers(records: Records, access: Revocations, grant: Id, e: Event) {
    && grant in records && records[grant].status == Projected && grant in access
    && records[grant].event.content.kind == MailboxAccessGrant
    && e.content.sender.Some? && e.content.recipient.Some?
    && records[grant].event.content.payload ==
         AccessPayload(MailboxAccess(e.content.recipient.value.mailbox, e.content.installation, e.signer))
    && records[grant].event.content.installation == e.content.recipient.value.installation
    && e.content.sender.value.installation == e.content.installation
    && forall r | r in access[grant] :: AtOrBelow(records, e.id, r)
  }

  /** The authority is the creation of the event's account, by the event's own signer. */
  ghost predicate SignedByCreator(records: Records, authority: Id, e: Event) {
    && authority in records && records[authority].status == Projected
    && records[authority].event.content.kind == HumanAccountCreate
    && var account := AccountOf(records[authority].event.content.payload);
    (e.content.audience, e.content.installation, e.signer) ==
      (Some(account.accountId), account.creatorInstallation, account.creatorSigner)
  }

  /** A revocation of the device that is concurrent with the event or precedes it. */
  ghost predicate Undercut(records: Records, device: HumanDevice, e: Event) {
    exists c ::
      && c in records && records[c].status == Projected
      && records[c].event.content.kind == HumanDeviceRevoke
      && DeviceOf(records[c].event.content.payload) == device
      && c != e.id && !Reaches(GraphOf(records), e.id, c)
  }

  /** The authority is the acceptance of the signing device, and nothing undercuts the device. */
  ghost predicate SignedByMember(records: Records, authority: Id, e: Event) {
    && authority in records && records[authority].status == Projected
    && records[authority].event.content.kind == HumanDeviceAccept
    && var device := DeviceOf(records[authority].event.content.payload);
    && (e.content.audience, e.content.installation, e.signer) ==
         (Some(device.accountId), device.installation, device.signer)
    && !Undercut(records, device, e)
  }

  predicate FromMailboxOf(e: Event, human: bool, policy: Policy) {
    && e.content.sender.Some?
    && e.content.sender.value.installation == e.content.installation
    && (human <==> e.content.sender.value.mailbox == policy.humanMailbox)
  }

  /** The thread is a projected question of the same account, asked by `asker`. */
  predicate AskedBy(records: Records, e: Event, asker: Option<Address>) {
    var thread := e.content.threadId;
    && thread in records && records[thread].status == Projected && records[thread].event.content.kind == Question
    && records[thread].event.content.audience == e.content.audience
    && asker.Some? && records[thread].event.content.sender == asker
  }

  /** Who may address an account with what: only the human mailbox sends messages, answers
      and state changes, and it never asks or reports activity; an answer goes to the asker; a
      cancellation comes from the asker; the target of a state change is in the same account;
      project traffic stays between human mailboxes. */
  predicate RoutedFairly(policy: Policy, records: Records, e: Event) {
    var kind := e.content.kind;
    && IsDomain(kind)
    && (kind in {Message, Answer, MessageArchive, MessageRestore, MessageReject} ==> FromMailboxOf(e, true, policy))
    && (kind in {Question, HarnessActivity} ==> FromMailboxOf(e, false, policy) && e.content.recipient.None?)
    && (kind == Message ==> e.content.recipient.Some? && e.content.recipient.value.mailbox != policy.humanMailbox)
    && (kind == Answer ==> AskedBy(records, e, e.content.recipient))
    && (kind == ThreadCancel ==> AskedBy(records, e, e.content.sender))
    && (IsMessageState(kind) ==>
          && TargetOf(e.content.payload) in records
          && records[TargetOf(e.content.payload)].event.content.audience == e.content.audience)
    && (kind in {ProjectCommand, ProjectResult} ==>
          && e.content.sender.Some? && e.content.sender.value.mailbox == policy.humanMailbox
          && e.content.recipient.Some? && e.content.recipient.value.mailbox == policy.humanMailbox)
  }

  /** An event may be acted on: peer-addressed under a covering grant, account-addressed by
      the creator or a member along a fair route, private by the local root key, public never. */
  ghost predicate MayAct(policy: Policy, records: Records, access: Revocations, e: Event) {
    && (e.content.scope == PeerAddressed ==>
          exists grant :: e.content.authorities == [grant] && GrantCovers(records, access, grant, e))
    && (e.content.scope == AccountAddressed ==>
          && e.content.authorities != []
          && (forall a | a in e.content.authorities :: SignedByCreator(records, a, e) || SignedByMember(records, a, e))
          && RoutedFairly(policy, records, e))
    && (e.content.scope == InstallationPrivate ==>
          e.content.installation == policy.installation && e.signer == policy.rootKey)
    && e.content.scope != Public
  }

  lemma CoveringGrant(records: Records, access: Revocations, e: Event)
    requires e.content.scope == PeerAddressed
    ensures PeerAuthorized(records, access, e) <==>
            exists grant :: e.content.authorities == [grant] && GrantCovers(records, access, grant, e)
  {
    if PeerAuthorized(records, access, e) {
      var grant := e.content.authorities[0];
      assert e.content.authorities == [grant] && GrantCovers(records, access, grant, e);
    }
  }

  lemma AdmittingAuthority(records: Records, e: Event, authority: Id)
    requires e.content.audience.Some?
    ensures AuthorityAdmits(records, e, authority) <==>
            SignedByCreator(records, authority, e) || SignedByMember(records, authority, e)
  {
    if IsProjected(records, authority) && records[authority].event.content.kind == HumanDeviceAccept {
      var device := DeviceOf(records[authority].event.content.payload);
      assert Undercut(records, device, e) <==>
             exists c :: ProjectedAs(records, c, HumanDeviceRevoke) &&
                         DeviceOf(records[c].event.content.payload) == device && !AtOrBelow(records, e.id, c);
    }
  }

  lemma FairRoute(policy: Policy, records: Records, e: Event)
    requires e.content.audience.Some?
    ensures AccountRouteAllowed(policy, records, e) <==> RoutedFairly(policy, records, e)
  {
  }

  /** Authorization, for every scope, kind and record set. */
  lemma AuthorizedExactly(policy: Policy, records: Records, access: Revocations, e: Event)
    ensures Authorized(policy, records, access, e) <==> MayAct(policy, records, access, e)
  {
    match e.content.scope
    case PeerAddressed => CoveringGrant(records, access, e);
    case AccountAddressed =>
      if e.content.audience.Some? {
        forall a | a in e.content.authorities
          ensures AuthorityAdmits(records, e, a) <==> SignedByCreator(records, a, e) || SignedByMember(records, a, e)
        {
          AdmittingAuthority(records, e, a);
        }
        FairRoute(policy, records, e);
      } else if e.content.authorities != [] {
        assert e.content.authorities[0] in e.content.authorities;
      }
    case _ =>
  }

  /** The inner scan over all records, in any iteration order, with its early exit. */
  method RevocationsFollow(records: Records, order: seq<Id>, item: Event, device: HumanDevice) returns (ok: bool)
    requires IsOrderOf(order, records)
    ensures ok <==> forall c | ProjectedAs(records, c, HumanDeviceRevoke) &&
                               DeviceOf(records[c].event.content.payload) == device ::
                      AtOrBelow(records, item.id, c)
  {
    for i := 0 to |order|
      invariant forall c | c in order[..i] && ProjectedAs(records, c, HumanDeviceRevoke) &&
                           DeviceOf(records[c].event.content.payload) == device ::
                  AtOrBelow(records, item.id, c)
    {
      if ProjectedAs(records, order[i], HumanDeviceRevoke) &&
         DeviceOf(records[order[i]].event.content.payload) == device
      {
        var below := TestAtOrBelow(records, item.id, order[i]);
        if !below {
          return false;
        }
      }
    }
    assert order[..|order|] == order;
    return true;
  }

  method TestAccountAuthority(records: Records, order: seq<Id>, item: Event) returns (ok: bool)
    requires IsOrderOf(order, records)
    ensures ok <==> AccountAuthorityMatches(records, item)
  {
    if item.content.audience.None? || item.content.authorities == [] {
      return false;
    }
    var authorities := item.content.authorities;
    for i := 0 to |authorities|
      invariant forall a | a in authorities[..i] :: AuthorityAdmits(records, item, a)
    {
      var authority := authorities[i];
      assert authority in item.content.authorities;
      if !IsProjected(records, authority) {
        return false;
      }
      var content := records[authority].event.content;
      if content.kind == HumanAccountCreate {
        var account := AccountOf(content.payload);
        if account.accountId != item.content.audience.value ||
           account.creatorInstallation != item.content.installation || account.creatorSigner != item.signer
        {
          return false;
        }
      } else {
        if content.kind != HumanDeviceAccept {
          return false;
        }
        var device := DeviceOf(content.payload);
        if device.accountId != item.content.audience.value ||
           device.installation != item.content.installation || device.signer != item.signer
        {
          return false;
        }
        var follow := RevocationsFollow(records, order, item, device);
        if !follow {
          return false;
        }
      }
    }
    assert authorities[..|authorities|] == authorities;
    return true;
  }

  method TestAuthorized(policy: Policy, records: Records, order: seq<Id>, access: Revocations, e: Event)
      returns (ok: bool)
    requires IsOrderOf(order, records)
    ensures ok <==> Authorized(policy, records, access, e)
    ensures ok <==> MayAct(policy, records, access, e)
  {
    AuthorizedExactly(policy, records, access, e);
    ok := DecideAuthorized(policy, records, order, access, e);
  }

  method DecideAuthorized(policy: Policy, records: Records, order: seq<Id>, access: Revocations, e: Event)
      returns (ok: bool)
    requires IsOrderOf(order, records)
    ensures ok <==> Authorized(policy, records, access, e)
  {
    if e.content.scope == AccountAddressed {
      ok := TestAccountAuthority(records, order, e);
      if ok {
        ok := AccountRouteAllowed(policy, records, e);
      }
      return;
    }
    if e.content.scope == InstallationPrivate {
      return SignedByLocalRoot(policy, e);
    }
    if e.content.scope != PeerAddressed || |e.content.authorities| != 1 {
      return false;
    }
    var grant := e.content.authorities[0];
    if !ProjectedAs(records, grant, MailboxAccessGrant) ||
       !MailboxGrantAuthorizes(records[grant].event, e) || grant !in access
    {
      return false;
    }
    for i := 0 to |access[grant]|
      invariant forall r | r in access[grant][..i] :: AtOrBelow(records, e.id, r)
    {
      var below := TestAtOrBelow(records, e.id, access[grant][i]);
      if !below {
        return false;
      }
    }
    return true;
  }
}
