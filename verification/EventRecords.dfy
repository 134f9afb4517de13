/**
 The event log as the reducer sees it: one record per event identifier, holding the
 verified event and its projection status, plus the causal facts that the later
 stages read from it.
 */
module EventRecords {
  import opened CausalGraph
  import opened Options

  type Id = string

  datatype Kind =
    | InstallationCreate | MailboxCreate | MailboxBind | MailboxContext
    | AgentNameClaim | AgentRetire | AgentSessionSelect | AgentSessionRename
    | Question | Answer | Message | ThreadCancel
    | MessageArchive | MessageRestore | MessageReject
    | PeerBindingSet | PeerBindingBlock
    | MailboxAccessGrant | MailboxAccessRevoke | MailboxAccessObserve
    | HumanAccountCreate | HumanAccountSelect
    | HumanDeviceGrant | HumanDeviceAccept | HumanDeviceRevoke
    | ProjectEvent | ProjectCommand | ProjectResult | HarnessActivity

  /** An unsigned 64-bit number. */
  type Sequence = n: nat | n < 0x1_0000_0000_0000_0000

  datatype Scope = InstallationPrivate | PeerAddressed | AccountAddressed | Public

  datatype Status = Projected | Unresolved | Unsupported | Invalid | Unauthorized

  datatype Address = Address(installation: string, mailbox: string)

  datatype HumanAccount = HumanAccount(
    accountId: string, creatorInstallation: string, creatorSigner: string, title: string)

  datatype HumanDevice = HumanDevice(
    accountId: string, creatorInstallation: string, creatorSigner: string,
    installation: string, signer: string, title: string,
    relays: seq<string>, creatorRelays: seq<string>)

  datatype MailboxAccess = MailboxAccess(mailbox: string, granteeInstallation: string, granteeSigner: string)

  /** The payload forms that classification and ordering read; other kinds carry `Opaque`. */
  datatype Payload =
    | Opaque
    | AccountPayload(account: HumanAccount)
    | DevicePayload(device: HumanDevice)
    | AccessPayload(grant: MailboxAccess)
    | TargetPayload(target: Id)
    | ActivityPayload(occurredAt: int, provider: string, runtime: string, sequence: Sequence)

  datatype Content = Content(
    kind: Kind, scope: Scope, installation: string,
    sender: Option<Address>, recipient: Option<Address>, audience: Option<string>,
    parents: seq<Id>, authorities: seq<Id>, threadId: Id, payload: Payload)

  datatype Event = Event(id: Id, signer: string, createdAt: int, content: Content)

  datatype Record = Record(event: Event, status: Status)

  type Records = map<Id, Record>

  datatype Policy = Policy(installation: string, rootKey: string, humanMailbox: string)

  predicate IsControl(k: Kind) {
    k in {InstallationCreate, MailboxCreate, MailboxBind, MailboxContext, AgentNameClaim, AgentRetire,
          AgentSessionSelect, AgentSessionRename, PeerBindingSet, PeerBindingBlock, HumanAccountSelect}
  }

  predicate IsHumanDevice(k: Kind) {
    k == HumanDeviceGrant || k == HumanDeviceAccept || k == HumanDeviceRevoke
  }

  predicate IsAccountAuthority(k: Kind) {
    k == HumanAccountCreate || IsHumanDevice(k)
  }

  predicate IsMailboxAccess(k: Kind) {
    k == MailboxAccessGrant || k == MailboxAccessRevoke || k == MailboxAccessObserve
  }

  /** The kinds the last classification stage decides. */
  predicate IsDomain(k: Kind) {
    !IsControl(k) && !IsAccountAuthority(k) && !IsMailboxAccess(k)
  }

  predicate IsMessageState(k: Kind) {
    k == MessageArchive || k == MessageRestore || k == MessageReject
  }

  predicate IsThreadRoot(k: Kind) {
    k == Question || k == Message
  }

  predicate IsProjected(records: Records, id: Id) {
    id in records && records[id].status == Projected
  }

  predicate ProjectedAs(records: Records, id: Id, kind: Kind) {
    IsProjected(records, id) && records[id].event.content.kind == kind
  }

  function DeviceOf(p: Payload): HumanDevice {
    if p.DevicePayload? then p.device else HumanDevice("", "", "", "", "", "", [], [])
  }

  function AccountOf(p: Payload): HumanAccount {
    if p.AccountPayload? then p.account else HumanAccount("", "", "", "")
  }

  function TargetOf(p: Payload): Id {
    if p.TargetPayload? then p.target else ""
  }

  /** What envelope validation guarantees of the records it lets through as projected:
      records are filed under their own non-empty identifier, and root questions and
      messages name no thread. */
  ghost predicate WellFormed(records: Records) {
    forall id | id in records ::
      && id != ""
      && records[id].event.id == id
      && (records[id].status == Projected && IsThreadRoot(records[id].event.content.kind) ==>
            records[id].event.content.threadId == "")
  }

  function GraphOf(records: Records): Graph<Id> {
    map id | id in records :: records[id].event.content.parents
  }

  /** The two record sets hold the same events and differ at most in statuses. */
  ghost predicate SameEvents(a: Records, b: Records) {
    a.Keys == b.Keys && forall id | id in a :: a[id].event == b[id].event
  }

  lemma SameGraph(a: Records, b: Records)
    requires SameEvents(a, b)
    ensures GraphOf(a) == GraphOf(b)
  {
  }

  /** One iteration order of a map: every key once. */
  ghost predicate IsOrderOf<K(!new), V>(order: seq<K>, m: map<K, V>) {
    && (forall x :: x in order <==> x in m)
    && (forall i, j | 0 <= i < j < |order| :: order[i] != order[j])
  }

  /** The keys of a map, in whatever order an iteration may take. */
  method SomeOrder<K(==, !new), V>(m: map<K, V>) returns (order: seq<K>)
    ensures IsOrderOf(order, m)
  {
    order := [];
    var left := m.Keys;
    while left != {}
      invariant left <= m.Keys && forall i, j | 0 <= i < j < |order| :: order[i] != order[j]
      invariant forall x :: x in order <==> x in m && x !in left
      decreases left
    {
      var key :| key in left;
      order := order + [key];
      left := left - {key};
    }
  }

  /** The reducer's causal test: the relation is `Before` or `Equal`. */
  ghost predicate AtOrBelow(records: Records, a: Id, d: Id) {
    a == d || Reaches(GraphOf(records), a, d)
  }

  method TestAtOrBelow(records: Records, a: Id, d: Id) returns (r: bool)
    ensures r <==> AtOrBelow(records, a, d)
  {
    var relation := Relate(GraphOf(records), a, d);
    r := relation == Before || relation == Equal;
  }
}
