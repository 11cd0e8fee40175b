/**
 * The entities written by the flow, control, factory and membership mappings of packages/subgraph,
 * the events those mappings handle, and the store each event leaves behind. From the registry and signal
 * mappings come the events that can create the global record; their own entities are not modelled.
 *
 * `Replay(log)` is the store after a whole run. The class in subgraph_indexer.dfy performs the
 * handlers field by field and is proved to reach exactly this store.
 */
module SubgraphStore {
  import opened Text
  import opened Runs

  // ----- entities -----

  datatype FlowState = CREATED | ACTIVE | PAUSED | FINALIZED | CANCELLED
  datatype OrgState = INACTIVE | ACTIVE | LOCKED | DISSOLVED
  datatype MemberState = INACTIVE | ACTIVE | PAUSED | BANNED

  datatype Campaign = Campaign(organization: JsString, creator: JsString, state: FlowState,
                               raised: int, contributorCount: int)
  datatype Contribution = Contribution(campaign: JsString, contributor: JsString,
                                       transaction: JsString, amount: int)
  datatype Organization = Organization(creator: JsString, treasury: Option<JsString>, state: OrgState,
                                       memberCount: int, totalCampaigns: int)
  datatype Treasury = Treasury(organization: JsString)
  datatype Member = Member(organization: JsString, user: JsString, state: MemberState)
  datatype Delegation = Delegation(organization: JsString, delegator: JsString, delegatee: JsString,
                                   amount: int, timestamp: nat, active: bool)
  datatype User = User(totalOrganizations: int, totalContributions: int)
  datatype Stats = Stats(totalOrganizations: int, activeOrganizations: int,
                         totalCampaigns: int, activeCampaigns: int, totalRaised: int)

  datatype Store = Store(
    campaigns: map<JsString, Campaign>,
    contributions: map<JsString, Contribution>,
    organizations: map<JsString, Organization>,
    treasuries: map<JsString, Treasury>,
    members: map<JsString, Member>,
    delegations: map<JsString, Delegation>,
    users: map<JsString, User>,
    stats: Option<Stats>)

  const EMPTY := Store(map[], map[], map[], map[], map[], map[], map[], None)
  const NEW_USER := User(0, 0)
  const NEW_STATS := Stats(0, 0, 0, 0, 0)
  const STUB := Organization([], None, OrgState.INACTIVE, 0, 0)

  // ----- events -----

  /** The fields of `Control.getOrganization` that reach the model. */
  datatype ChainOrganization = ChainOrganization(state: int, memberCount: int, totalCampaigns: int)

  datatype Event =
    | CampaignCreated(campaignId: Bytes, organizationId: Bytes8, creator: Bytes)
    | CampaignStateChanged(campaignId: Bytes, newState: int)
    | ContributionMade(campaignId: Bytes, contributor: Bytes, amount: int, transaction: Bytes)
    | CampaignFinalized(campaignId: Bytes, totalRaised: int)
    | ContributionRefunded(campaignId: Bytes, contributor: Bytes, amount: int, transaction: Bytes)
    | OrganizationCreated(organizationId: Bytes8, creator: Bytes, treasury: Bytes, chain: Option<ChainOrganization>)
    | OrganizationStateChanged(organizationId: Bytes8, newState: int)
    | StakeWithdrawn(staker: Bytes)
    | FactoryOrganizationCreated(organizationId: Bytes8, creator: Bytes, treasury: Bytes)
    | MemberAdded(organizationId: Bytes8, member: Bytes)
    | MemberRemoved(organizationId: Bytes8, member: Bytes)
    | MemberStateUpdated(organizationId: Bytes8, member: Bytes, newState: int)
    | VotingDelegated(organizationId: Bytes8, delegator: Bytes, delegatee: Bytes, amount: int,
                      timestamp: nat, blockTimestamp: nat)
    | VotingUndelegated(organizationId: Bytes8, delegator: Bytes, delegatee: Bytes, timestamp: nat)
    | ModuleChanged
    | ProposalCreated(creator: Bytes)

  /** `getFlowStateString`. */
  function MapFlowState(n: int): FlowState
  {
    if n == 1 then FlowState.ACTIVE
    else if n == 2 then FlowState.PAUSED
    else if n == 3 then FlowState.FINALIZED
    else if n == 4 then FlowState.CANCELLED
    else FlowState.CREATED
  }

  /** `mapOrgState`: unknown numbers read as ACTIVE. */
  function MapOrgState(n: int): OrgState
  {
    if n == 0 then OrgState.INACTIVE
    else if n == 2 then OrgState.LOCKED
    else if n == 3 then OrgState.DISSOLVED
    else OrgState.ACTIVE
  }

  /** The nested conditional of `handleMemberStateUpdated`: unknown numbers read as BANNED. */
  function MapMemberState(n: int): MemberState
  {
    if n == 0 then MemberState.INACTIVE
    else if n == 1 then MemberState.ACTIVE
    else if n == 2 then MemberState.PAUSED
    else MemberState.BANNED
  }

  /** The id control.ts, factory.ts and flow.ts use for a user: `toHex().toLowerCase()`. */
  function UserKey(address: Bytes): JsString
  {
    ToLower(ToHex(address))
  }

  // ----- the store after one event -----

  /** The loaded record, or the one created in its place. */
  function UserOf(users: map<JsString, User>, id: JsString): User
  {
    if id in users then users[id] else NEW_USER
  }

  function StatsOf(stats: Option<Stats>): Stats
  {
    if stats.Some? then stats.value else NEW_STATS
  }

  function OrganizationOf(organizations: map<JsString, Organization>, id: JsString): Organization
  {
    if id in organizations then organizations[id] else STUB
  }

  function Seen(users: map<JsString, User>, id: JsString): map<JsString, User>
  {
    users[id := UserOf(users, id)]
  }

  /** Whether an event is one of the two that announce an organization. */
  predicate Announces(e: Event)
  {
    e.OrganizationCreated? || e.FactoryOrganizationCreated?
  }

  function AnnouncedState(e: Event): OrgState
    requires Announces(e)
  {
    if e.OrganizationCreated? && e.chain.Some? then MapOrgState(e.chain.value.state) else OrgState.ACTIVE
  }

  function AnnouncedMemberCount(e: Event): int
    requires Announces(e)
  {
    if e.FactoryOrganizationCreated? then 1 else if e.chain.Some? then e.chain.value.memberCount else 0
  }

  function AnnouncedCampaigns(e: Event): int
    requires Announces(e)
  {
    if e.OrganizationCreated? && e.chain.Some? then e.chain.value.totalCampaigns else 0
  }

  /** Whether an event creates the global record where there is none. */
  predicate CreatesStats(e: Event)
  {
    Announces(e) || e.CampaignCreated? || e.ModuleChanged? || e.ProposalCreated?
  }

  function AfterAnnouncement(
    s: Store, id: JsString, organization: Organization, treasury: JsString, user: JsString): (r: Store)
    ensures r == s.(organizations := r.organizations, treasuries := r.treasuries, users := r.users, stats := r.stats)
  {
    var u, t := UserOf(s.users, user), StatsOf(s.stats);
    s.(organizations := s.organizations[id := organization],
       treasuries := s.treasuries[treasury := Treasury(id)],
       users := s.users[user := u.(totalOrganizations := u.totalOrganizations + 1)],
       stats := Some(t.(totalOrganizations := t.totalOrganizations + 1,
                        activeOrganizations := t.activeOrganizations + 1)))
  }

  /** The change of an "active" counter when one record's state moves. */
  function ActiveShift(before: bool, after: bool): int
  {
    if !before && after then 1 else if before && !after then -1 else 0
  }

  function AfterCampaignCreated(
    s: Store, id: JsString, organization: JsString, creator: JsString, user: JsString): (r: Store)
    ensures r == s.(campaigns := r.campaigns, users := r.users, stats := r.stats, organizations := r.organizations)
  {
    var t := StatsOf(s.stats);
    s.(campaigns := s.campaigns[id := Campaign(organization, creator, FlowState.CREATED, 0, 0)],
       users := Seen(s.users, user),
       stats := Some(t.(totalCampaigns := t.totalCampaigns + 1, activeCampaigns := t.activeCampaigns + 1)),
       organizations := OneMoreCampaign(s.organizations, organization))
  }

  function OneMoreCampaign(organizations: map<JsString, Organization>, id: JsString): map<JsString, Organization>
  {
    if id in organizations then
      organizations[id := organizations[id].(totalCampaigns := organizations[id].totalCampaigns + 1)]
    else organizations
  }

  function AfterCampaignState(s: Store, id: JsString, now: FlowState): (r: Store)
    ensures r == s.(campaigns := r.campaigns, stats := r.stats)
  {
    if id !in s.campaigns then s else
      var was := s.campaigns[id].state;
      s.(campaigns := s.campaigns[id := s.campaigns[id].(state := now)],
         stats :=
           if s.stats.None? then None else
             Some(s.stats.value.(activeCampaigns := s.stats.value.activeCampaigns +
                                   ActiveShift(was == FlowState.ACTIVE, now == FlowState.ACTIVE))))
  }

  function MovedCampaigns(campaigns: map<JsString, Campaign>, id: JsString, amount: int, contributors: int)
    : map<JsString, Campaign>
  {
    if id !in campaigns then campaigns else
      var c := campaigns[id];
      campaigns[id := c.(raised := c.raised + amount, contributorCount := c.contributorCount + contributors)]
  }

  function MovedStats(stats: Option<Stats>, amount: int): Option<Stats>
  {
    if stats.None? then None else Some(stats.value.(totalRaised := stats.value.totalRaised + amount))
  }

  /** Save a contribution or refund record and, for a known campaign, move both totals by its amount. */
  function AfterPayment(
    s: Store, key: JsString, paid: Contribution, contributors: int, user: JsString, contributed: int): (r: Store)
    ensures r == s.(contributions := r.contributions, users := r.users, campaigns := r.campaigns, stats := r.stats)
  {
    var u := UserOf(s.users, user);
    s.(contributions := s.contributions[key := paid],
       users := s.users[user := u.(totalContributions := u.totalContributions + contributed)],
       campaigns := MovedCampaigns(s.campaigns, paid.campaign, paid.amount, contributors),
       stats := if paid.campaign in s.campaigns then MovedStats(s.stats, paid.amount) else s.stats)
  }

  function AfterFinalized(s: Store, id: JsString, totalRaised: int): (r: Store)
    ensures r == s.(campaigns := r.campaigns, stats := r.stats)
  {
    if id !in s.campaigns then s else
      s.(campaigns := s.campaigns[id := s.campaigns[id].(state := FlowState.FINALIZED, raised := totalRaised)],
         stats :=
           if s.stats.None? then None else
             Some(s.stats.value.(activeCampaigns := s.stats.value.activeCampaigns - 1)))
  }

  function AfterOrganizationState(s: Store, id: JsString, now: OrgState): (r: Store)
    ensures r == s.(organizations := r.organizations, stats := r.stats)
  {
    if id !in s.organizations then s else
      var was := s.organizations[id].state;
      s.(organizations := s.organizations[id := s.organizations[id].(state := now)],
         stats :=
           if s.stats.None? then None else
             Some(s.stats.value.(activeOrganizations := s.stats.value.activeOrganizations +
                                   ActiveShift(was == OrgState.ACTIVE, now == OrgState.ACTIVE))))
  }

  function AfterMemberAdded(s: Store, id: JsString, user: JsString, key: JsString): (r: Store)
    ensures r == s.(users := r.users, organizations := r.organizations, members := r.members)
  {
    var o := OrganizationOf(s.organizations, id);
    s.(users := Seen(s.users, user),
       organizations := s.organizations[id := o.(memberCount := o.memberCount + 1)],
       members := s.members[key := Member(id, user, MemberState.ACTIVE)])
  }

  function AfterMemberRemoved(s: Store, id: JsString, key: JsString): (r: Store)
    ensures r == s.(organizations := r.organizations, members := r.members)
  {
    var o := OrganizationOf(s.organizations, id);
    if key !in s.members then
      s.(organizations := s.organizations[id := o])
    else
      s.(members := s.members[key := s.members[key].(state := MemberState.INACTIVE)],
         organizations := s.organizations[id := o.(memberCount := o.memberCount - 1)])
  }

  function AfterMemberState(s: Store, key: JsString, now: MemberState): (r: Store)
    ensures r == s.(members := r.members)
  {
    if key !in s.members then s else s.(members := s.members[key := s.members[key].(state := now)])
  }

  function AfterDelegated(
    s: Store, key: JsString, given: Delegation, delegator: JsString, delegatee: JsString): (r: Store)
    ensures r == s.(users := r.users, organizations := r.organizations, delegations := r.delegations)
  {
    var id := given.organization;
    var seen := s.(users := Seen(Seen(s.users, delegator), delegatee),
                   organizations := s.organizations[id := OrganizationOf(s.organizations, id)]);
    if given.delegator !in s.members || given.delegatee !in s.members then seen else
      seen.(delegations := s.delegations[key := given])
  }

  function AfterUndelegated(s: Store, key: JsString): (r: Store)
    ensures r == s.(delegations := r.delegations)
  {
    if key !in s.delegations then s else
      s.(delegations := s.delegations[key := s.delegations[key].(active := false)])
  }

  function AnnouncedOrganization(e: Event): Organization
    requires Announces(e)
  {
    Organization(ToHex(e.creator), Some(ToHex(e.treasury)), AnnouncedState(e),
                 AnnouncedMemberCount(e), AnnouncedCampaigns(e))
  }

  function Paid(e: Event): Contribution
    requires e.ContributionMade? || e.ContributionRefunded?
  {
    Contribution(ToHex(e.campaignId), ToHex(e.contributor), ToHex(e.transaction),
                 if e.ContributionMade? then e.amount else -e.amount)
  }

  function PaidKey(e: Event): JsString
    requires e.ContributionMade? || e.ContributionRefunded?
  {
    if e.ContributionMade? then ContributionKey(ToHex(e.campaignId), ToHex(e.contributor), ToHex(e.transaction))
    else RefundKey(ToHex(e.campaignId), ToHex(e.contributor), ToHex(e.transaction))
  }

  function Given(e: Event): Delegation
    requires e.VotingDelegated?
  {
    Delegation(IdString(e.organizationId), MemberKey(e.organizationId, e.delegator),
               MemberKey(e.organizationId, e.delegatee), e.amount, e.timestamp, true)
  }

  function Step(s: Store, e: Event): Store
  {
    match e
    case CampaignCreated(campaignId, organizationId, creator) =>
      AfterCampaignCreated(s, ToHex(campaignId), IdString(organizationId), ToHex(creator), UserKey(creator))
    case CampaignStateChanged(campaignId, newState) =>
      AfterCampaignState(s, ToHex(campaignId), MapFlowState(newState))
    case ContributionMade(_, contributor, _, _) =>
      AfterPayment(s, PaidKey(e), Paid(e), 1, UserKey(contributor), 1)
    case CampaignFinalized(campaignId, totalRaised) =>
      AfterFinalized(s, ToHex(campaignId), totalRaised)
    case ContributionRefunded(_, contributor, _, _) =>
      AfterPayment(s, PaidKey(e), Paid(e), 0, UserKey(contributor), 0)
    case OrganizationCreated(organizationId, creator, treasury, _) =>
      AfterAnnouncement(s, IdString(organizationId), AnnouncedOrganization(e), ToHex(treasury), UserKey(creator))
    case FactoryOrganizationCreated(organizationId, creator, treasury) =>
      AfterAnnouncement(s, IdString(organizationId), AnnouncedOrganization(e), ToHex(treasury), UserKey(creator))
    case OrganizationStateChanged(organizationId, newState) =>
      AfterOrganizationState(s, IdString(organizationId), MapOrgState(newState))
    case StakeWithdrawn(staker) =>
      s.(users := Seen(s.users, UserKey(staker)))
    case MemberAdded(organizationId, member) =>
      AfterMemberAdded(s, IdString(organizationId), ToHex(member), MemberKey(organizationId, member))
    case MemberRemoved(organizationId, member) =>
      AfterMemberRemoved(s, IdString(organizationId), MemberKey(organizationId, member))
    case MemberStateUpdated(organizationId, member, newState) =>
      AfterMemberState(s, MemberKey(organizationId, member), MapMemberState(newState))
    case VotingDelegated(organizationId, delegator, delegatee, _, _, blockTimestamp) =>
      AfterDelegated(s, DelegationKey(organizationId, delegator, delegatee, blockTimestamp), Given(e),
                     ToHex(delegator), ToHex(delegatee))
    case VotingUndelegated(organizationId, delegator, delegatee, timestamp) =>
      AfterUndelegated(s, DelegationKey(organizationId, delegator, delegatee, timestamp))
    case ModuleChanged =>
      s.(stats := Some(StatsOf(s.stats)))
    case ProposalCreated(creator) =>
      s.(users := Seen(s.users, UserKey(creator)), stats := Some(StatsOf(s.stats)))
  }

  // ----- the store after a run -----

  function Replay(log: seq<Event>): Store
  {
    Fold(Step, EMPTY, log)
  }
}
