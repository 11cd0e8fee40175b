/**
 * The entities and events of the older mappings src/membership.ts and src/identity.ts, and the store
 * each event leaves behind. Organizations are never created there, so a run starts from some table of
 * them, with nothing else stored.
 */
module LegacyStore {
  import opened Text
  import opened Runs
  import opened Tally

  const ACTIVE := 1

  datatype Organization = Organization(memberCount: int)
  datatype User = User(totalMemberships: int)
  datatype Member = Member(organization: JsString, user: JsString, state: int)
  datatype Delegation = Delegation(organization: JsString, delegator: JsString, delegatee: JsString,
                                   amount: int, active: bool)
  datatype Profile = Profile(owner: JsString, verified: bool)
  datatype Stats = Stats(totalMembers: int, totalActiveMemberships: int, totalVotingPower: int, totalDelegations: int,
                         totalProfiles: int, verifiedProfiles: int)

  datatype Store = Store(
    organizations: map<JsString, Organization>,
    users: map<JsString, User>,
    members: map<JsString, Member>,
    delegations: map<JsString, Delegation>,
    profiles: map<JsString, Profile>,
    stats: Option<Stats>)

  type Organizations = map<JsString, Organization>

  function Initial(organizations: Organizations): Store
  {
    Store(organizations, map[], map[], map[], map[], None)
  }

  const NEW_USER := User(0)
  const NEW_STATS := Stats(0, 0, 0, 0, 0, 0)

  datatype Event =
    | MemberAdded(organizationId: Bytes, memberAddress: Bytes, state: int)
    | MemberRemoved(organizationId: Bytes, memberAddress: Bytes)
    | MemberStateUpdated(organizationId: Bytes, memberAddress: Bytes, newState: int)
    | VotingPowerUpdated(organizationId: Bytes, memberAddress: Bytes, oldVotingPower: int, newVotingPower: int)
    | VotingDelegated(organizationId: Bytes, delegator: Bytes, delegatee: Bytes, amount: int, timestamp: nat)
    | VotingUndelegated(organizationId: Bytes, delegator: Bytes, delegatee: Bytes, amount: int, timestamp: nat)
    | ProfileCreated(profileId: Bytes, owner: Bytes)
    | ProfileVerified(profileId: Bytes)

  function UserOf(users: map<JsString, User>, id: JsString): User
  {
    if id in users then users[id] else NEW_USER
  }

  function StatsOf(stats: Option<Stats>): Stats
  {
    if stats.Some? then stats.value else NEW_STATS
  }

  function AfterAdded(s: Store, id: JsString, user: JsString, key: JsString, state: int): (r: Store)
    ensures r == s.(organizations := r.organizations, users := r.users, members := r.members, stats := r.stats)
  {
    if id !in s.organizations then s else
      var u, t := UserOf(s.users, user), StatsOf(s.stats);
      s.(users := s.users[user := User(u.totalMemberships + 1)],
         members := s.members[key := Member(id, user, state)],
         organizations := s.organizations[id := Organization(s.organizations[id].memberCount + 1)],
         stats := Some(t.(totalMembers := t.totalMembers + 1,
                          totalActiveMemberships := t.totalActiveMemberships + One(state == ACTIVE))))
  }

  function AfterRemoved(s: Store, key: JsString): (r: Store)
    ensures r == s.(organizations := r.organizations, users := r.users, stats := r.stats)
  {
    if key !in s.members then s else
      var m := s.members[key];
      s.(organizations :=
           if m.organization in s.organizations then
             s.organizations[m.organization := Organization(s.organizations[m.organization].memberCount - 1)]
           else s.organizations,
         users :=
           if m.user in s.users then s.users[m.user := User(s.users[m.user].totalMemberships - 1)] else s.users,
         stats :=
           if s.stats.None? then None else
             Some(s.stats.value.(
                    totalMembers := s.stats.value.totalMembers - 1,
                    totalActiveMemberships := s.stats.value.totalActiveMemberships - One(m.state == ACTIVE))))
  }

  function AfterState(s: Store, key: JsString, state: int): (r: Store)
    ensures r == s.(members := r.members, stats := r.stats)
  {
    if key !in s.members then s else
      s.(members := s.members[key := s.members[key].(state := state)],
         stats :=
           if s.stats.None? then None else
             Some(s.stats.value.(
                    totalActiveMemberships := s.stats.value.totalActiveMemberships
                                              + One(state == ACTIVE) - One(s.members[key].state == ACTIVE))))
  }

  function AfterPower(s: Store, key: JsString, change: int): (r: Store)
    ensures r == s.(stats := r.stats)
  {
    if key !in s.members || s.stats.None? then s else
      s.(stats := Some(s.stats.value.(totalVotingPower := s.stats.value.totalVotingPower + change)))
  }

  /** Whether the organization and both parties of a delegation are stored. */
  predicate PartiesStored(s: Store, d: Delegation)
  {
    d.organization in s.organizations && d.delegator in s.members && d.delegatee in s.members
  }

  function AfterDelegated(s: Store, key: JsString, d: Delegation): (r: Store)
    ensures r == s.(delegations := r.delegations, stats := r.stats)
  {
    if !PartiesStored(s, d) then s else
      s.(delegations := s.delegations[key := d],
         stats :=
           if s.stats.None? then None else
             Some(s.stats.value.(totalDelegations := s.stats.value.totalDelegations + 1)))
  }

  function AfterProfile(s: Store, id: JsString, owner: JsString): (r: Store)
    ensures r == s.(users := r.users, profiles := r.profiles, stats := r.stats)
  {
    var t := StatsOf(s.stats);
    s.(users := s.users[owner := UserOf(s.users, owner)],
       profiles := s.profiles[id := Profile(owner, false)],
       stats := Some(t.(totalProfiles := t.totalProfiles + 1)))
  }

  function AfterVerified(s: Store, id: JsString): (r: Store)
    ensures r == s.(profiles := r.profiles, stats := r.stats)
  {
    if id !in s.profiles then s else
      s.(profiles := s.profiles[id := s.profiles[id].(verified := true)],
         stats :=
           if s.stats.None? then None else
             Some(s.stats.value.(verifiedProfiles := s.stats.value.verifiedProfiles + 1)))
  }

  predicate MovesVotes(e: Event)
  {
    e.VotingDelegated? || e.VotingUndelegated?
  }

  function VoteKey(e: Event): JsString
    requires MovesVotes(e)
  {
    DelegationKey(e.organizationId, e.delegator, e.delegatee, e.timestamp)
  }

  /** The record a delegation or, negated and inactive, an undelegation writes. */
  function VoteRecord(e: Event): Delegation
    requires MovesVotes(e)
  {
    Delegation(ToHex(e.organizationId),
               MemberKey(e.organizationId, e.delegator), MemberKey(e.organizationId, e.delegatee),
               if e.VotingDelegated? then e.amount else -e.amount, e.VotingDelegated?)
  }

  function Step(s: Store, e: Event): Store
  {
    match e
    case MemberAdded(o, m, state) => AfterAdded(s, ToHex(o), ToHex(m), MemberKey(o, m), state)
    case MemberRemoved(o, m) => AfterRemoved(s, MemberKey(o, m))
    case MemberStateUpdated(o, m, newState) => AfterState(s, MemberKey(o, m), newState)
    case VotingPowerUpdated(o, m, was, now) => AfterPower(s, MemberKey(o, m), now - was)
    case VotingDelegated(_, _, _, _, _) => AfterDelegated(s, VoteKey(e), VoteRecord(e))
    case VotingUndelegated(_, _, _, _, _) => s.(delegations := s.delegations[VoteKey(e) := VoteRecord(e)])
    case ProfileCreated(p, owner) => AfterProfile(s, ToHex(p), ToHex(owner))
    case ProfileVerified(p) => AfterVerified(s, ToHex(p))
  }

  function Replay(organizations: Organizations, log: seq<Event>): Store
  {
    Fold(Step, Initial(organizations), log)
  }
}
