/**
 * The handlers of packages/subgraph/src/{flow,control,factory,membership}.ts as they run: each loads
 * records, changes them and saves them back into the store's tables.
 */
module SubgraphIndexer {
  import opened Text
  import opened Runs
  import opened SubgraphStore

  class Indexer {
    var campaigns: map<JsString, Campaign>
    var contributions: map<JsString, Contribution>
    var organizations: map<JsString, Organization>
    var treasuries: map<JsString, Treasury>
    var members: map<JsString, Member>
    var delegations: map<JsString, Delegation>
    var users: map<JsString, User>
    var stats: Option<Stats>
    ghost var log: seq<Event>

    ghost function Snapshot(): Store
      reads this
    {
      Store(campaigns, contributions, organizations, treasuries, members, delegations, users, stats)
    }

    /** The tables hold exactly what the handled events, in order, leave behind. */
    ghost predicate Valid()
      reads this
    {
      Snapshot() == Replay(log)
    }

    ghost predicate Handled(before: seq<Event>, e: Event)
      reads this
    {
      Valid() && log == before + [e]
    }

    constructor ()
      ensures Valid() && log == []
    {
      campaigns, contributions, organizations, treasuries := map[], map[], map[], map[];
      members, delegations, users, stats := map[], map[], map[], None;
      log := [];
    }

    /** Appends a handled event to the log once every table is what that event leaves behind. */
    ghost method Record(e: Event)
      requires var next := Step(Replay(log), e);
               && campaigns == next.campaigns && contributions == next.contributions
               && organizations == next.organizations && treasuries == next.treasuries
               && members == next.members && delegations == next.delegations
               && users == next.users && stats == next.stats
      modifies this`log
      ensures Handled(old(log), e)
    {
      log := log + [e];
      assert Before(log) == old(log);
    }

    // ----- load-or-create helpers -----

    /** flow.ts and utils/ids.ts `getOrCreateUser`, control.ts `createOrUpdateUser`. */
    method GetOrCreateUser(id: JsString) returns (user: User)
      modifies this`users
      ensures users == Seen(old(users), id) && user == users[id]
    {
      if id in users {
        user := users[id];
      } else {
        user := User(0, 0);
      }
      users := users[id := user];
    }

    /** utils/ids.ts `getOrCreateOrganization`. */
    method GetOrCreateOrganization(id: JsString) returns (organization: Organization)
      modifies this`organizations
      ensures organization == OrganizationOf(old(organizations), id)
      ensures organizations == old(organizations)[id := organization]
    {
      if id in organizations {
        organization := organizations[id];
      } else {
        organization := Organization([], None, OrgState.INACTIVE, 0, 0);
      }
      organizations := organizations[id := organization];
    }

    /** Load or create a user and save it again with a later activity time, which is not modelled. */
    method TouchUser(id: JsString)
      modifies this`users
      ensures users == Seen(old(users), id)
    {
      var user := GetOrCreateUser(id);
      users := users[id := user];
    }

    method CountUserOrganization(id: JsString)
      modifies this`users
      ensures users == old(users)[id := UserOf(old(users), id).(
                                          totalOrganizations := UserOf(old(users), id).totalOrganizations + 1)]
    {
      var user := GetOrCreateUser(id);
      user := user.(totalOrganizations := user.totalOrganizations + 1);
      users := users[id := user];
    }

    method CountUserContribution(id: JsString)
      modifies this`users
      ensures users == old(users)[id := UserOf(old(users), id).(
                                          totalContributions := UserOf(old(users), id).totalContributions + 1)]
    {
      var user := GetOrCreateUser(id);
      user := user.(totalContributions := user.totalContributions + 1);
      users := users[id := user];
    }

    /** The "if (!stats) new GlobalStats" blocks; the caller saves. */
    method LoadOrNewStats() returns (global: Stats)
      ensures global == StatsOf(stats)
    {
      if stats.Some? {
        global := stats.value;
      } else {
        global := Stats(0, 0, 0, 0, 0);
      }
    }

    // ----- flow.ts -----

    method HandleCampaignCreated(e: Event)
      requires e.CampaignCreated? && Valid()
      modifies this
      ensures Handled(old(log), e)
    {
      var campaign := Campaign(IdString(e.organizationId), ToHex(e.creator), FlowState.CREATED, 0, 0);
      campaigns := campaigns[ToHex(e.campaignId) := campaign];

      TouchUser(UserKey(e.creator));
      CountCampaign();
      CountOrganizationCampaign(campaign.organization);
      Record(e);
    }

    method CountCampaign()
      modifies this`stats
      ensures stats == Some(StatsOf(old(stats)).(
                              totalCampaigns := StatsOf(old(stats)).totalCampaigns + 1,
                              activeCampaigns := StatsOf(old(stats)).activeCampaigns + 1))
    {
      var global := LoadOrNewStats();
      global := global.(totalCampaigns := global.totalCampaigns + 1);
      global := global.(activeCampaigns := global.activeCampaigns + 1);
      stats := Some(global);
    }

    method CountOrganizationCampaign(id: JsString)
      modifies this`organizations
      ensures organizations == OneMoreCampaign(old(organizations), id)
    {
      if id in organizations {
        var organization := organizations[id];
        organization := organization.(totalCampaigns := organization.totalCampaigns + 1);
        organizations := organizations[id := organization];
      }
    }

    method HandleCampaignStateChanged(e: Event)
      requires e.CampaignStateChanged? && Valid()
      modifies this
      ensures Handled(old(log), e)
    {
      var id := ToHex(e.campaignId);
      if id in campaigns {
        var campaign := campaigns[id];
        var oldState := campaign.state;
        campaign := campaign.(state := MapFlowState(e.newState));
        campaigns := campaigns[id := campaign];
        if stats.Some? {
          var global := stats.value;
          if oldState != FlowState.ACTIVE && campaign.state == FlowState.ACTIVE {
            global := global.(activeCampaigns := global.activeCampaigns + 1);
          } else if oldState == FlowState.ACTIVE && campaign.state != FlowState.ACTIVE {
            global := global.(activeCampaigns := global.activeCampaigns - 1);
          }
          stats := Some(global);
        }
      }
      Record(e);
    }

    method HandleContributionMade(e: Event)
      requires e.ContributionMade? && Valid()
      modifies this
      ensures Handled(old(log), e)
    {
      var id, payer, tx := ToHex(e.campaignId), ToHex(e.contributor), ToHex(e.transaction);
      contributions := contributions[ContributionKey(id, payer, tx) := Contribution(id, payer, tx, e.amount)];

      MoveRaised(id, e.amount, 1);
      CountUserContribution(UserKey(e.contributor));
      Record(e);
    }

    /** The campaign and global-stats part shared by contributions and refunds. */
    method MoveRaised(id: JsString, amount: int, contributors: int)
      modifies this`campaigns, this`stats
      ensures campaigns == MovedCampaigns(old(campaigns), id, amount, contributors)
      ensures stats == if id in campaigns then MovedStats(old(stats), amount) else old(stats)
    {
      if id in campaigns {
        var campaign := campaigns[id];
        campaign := campaign.(raised := campaign.raised + amount);
        campaign := campaign.(contributorCount := campaign.contributorCount + contributors);
        campaigns := campaigns[id := campaign];
        if stats.Some? {
          stats := Some(stats.value.(totalRaised := stats.value.totalRaised + amount));
        }
      }
    }

    method HandleCampaignFinalized(e: Event)
      requires e.CampaignFinalized? && Valid()
      modifies this
      ensures Handled(old(log), e)
    {
      var id := ToHex(e.campaignId);
      if id in campaigns {
        var campaign := campaigns[id];
        campaign := campaign.(state := FlowState.FINALIZED);
        campaign := campaign.(raised := e.totalRaised);
        campaigns := campaigns[id := campaign];
        if stats.Some? {
          stats := Some(stats.value.(activeCampaigns := stats.value.activeCampaigns - 1));
        }
      }
      Record(e);
    }

    method HandleContributionRefunded(e: Event)
      requires e.ContributionRefunded? && Valid()
      modifies this
      ensures Handled(old(log), e)
    {
      var id, payer, tx := ToHex(e.campaignId), ToHex(e.contributor), ToHex(e.transaction);
      contributions := contributions[RefundKey(id, payer, tx) := Contribution(id, payer, tx, -e.amount)];

      MoveRaised(id, -e.amount, 0);
      TouchUser(UserKey(e.contributor));
      Record(e);
    }

    // ----- control.ts and factory.ts -----

    method HandleOrganizationCreated(e: Event)
      requires e.OrganizationCreated? && Valid()
      modifies this
      ensures Handled(old(log), e)
    {
      var id := IdString(e.organizationId);
      var organization: Organization;
      if e.chain.Some? {
        var org := e.chain.value;
        organization := Organization(ToHex(e.creator), None, MapOrgState(org.state),
                                     org.memberCount, org.totalCampaigns);
      } else {
        organization := Organization(ToHex(e.creator), None, OrgState.ACTIVE, 0, 0);
      }

      var treasuryId := ToHex(e.treasury);
      treasuries := treasuries[treasuryId := Treasury(id)];
      organization := organization.(treasury := Some(treasuryId));
      organizations := organizations[id := organization];

      CountUserOrganization(UserKey(e.creator));
      CountOrganization();
      Record(e);
    }

    method CountOrganization()
      modifies this`stats
      ensures stats == Some(StatsOf(old(stats)).(
                              totalOrganizations := StatsOf(old(stats)).totalOrganizations + 1,
                              activeOrganizations := StatsOf(old(stats)).activeOrganizations + 1))
    {
      var global := LoadOrNewStats();
      global := global.(totalOrganizations := global.totalOrganizations + 1);
      global := global.(activeOrganizations := global.activeOrganizations + 1);
      stats := Some(global);
    }

    method HandleOrganizationStateChanged(e: Event)
      requires e.OrganizationStateChanged? && Valid()
      modifies this
      ensures Handled(old(log), e)
    {
      var id := IdString(e.organizationId);
      if id in organizations {
        var organization := organizations[id];
        var oldState := organization.state;
        organization := organization.(state := MapOrgState(e.newState));
        organizations := organizations[id := organization];
        if stats.Some? {
          var global := stats.value;
          if oldState != OrgState.ACTIVE && organization.state == OrgState.ACTIVE {
            global := global.(activeOrganizations := global.activeOrganizations + 1);
          } else if oldState == OrgState.ACTIVE && organization.state != OrgState.ACTIVE {
            global := global.(activeOrganizations := global.activeOrganizations - 1);
          }
          stats := Some(global);
        }
      }
      Record(e);
    }

    method HandleStakeWithdrawn(e: Event)
      requires e.StakeWithdrawn? && Valid()
      modifies this
      ensures Handled(old(log), e)
    {
      TouchUser(UserKey(e.staker));
      Record(e);
    }

    method HandleFactoryOrganizationCreated(e: Event)
      requires e.FactoryOrganizationCreated? && Valid()
      modifies this
      ensures Handled(old(log), e)
    {
      var id := IdString(e.organizationId);
      SaveOrganizationTwice(id, Organization(ToHex(e.creator), None, OrgState.ACTIVE, 1, 0), ToHex(e.treasury));
      CountUserOrganization(UserKey(e.creator));
      CountOrganization();
      Record(e);
    }

    /** factory.ts saves before and after linking the treasury; the first save keeps an earlier link. */
    method SaveOrganizationTwice(id: JsString, fields: Organization, treasuryId: JsString)
      modifies this`organizations, this`treasuries
      ensures organizations == old(organizations)[id := fields.(treasury := Some(treasuryId))]
      ensures treasuries == old(treasuries)[treasuryId := Treasury(id)]
    {
      var earlier := if id in organizations then organizations[id].treasury else None;
      var organization := fields.(treasury := earlier);
      organizations := organizations[id := organization];
      treasuries := treasuries[treasuryId := Treasury(id)];
      organization := organization.(treasury := Some(treasuryId));
      organizations := organizations[id := organization];
    }

    // ----- membership.ts -----

    /** Load or create the organization, then save it with its count moved. */
    method CountMember(id: JsString, change: int)
      modifies this`organizations
      ensures organizations == old(organizations)[id := OrganizationOf(old(organizations), id).(
                                 memberCount := OrganizationOf(old(organizations), id).memberCount + change)]
    {
      var org := GetOrCreateOrganization(id);
      org := org.(memberCount := org.memberCount + change);
      organizations := organizations[id := org];
    }

    method HandleMemberAdded(e: Event)
      requires e.MemberAdded? && Valid()
      modifies this
      ensures Handled(old(log), e)
    {
      var _ := GetOrCreateUser(ToHex(e.member));
      var id := IdString(e.organizationId);
      members := members[MemberKey(e.organizationId, e.member) := Member(id, ToHex(e.member), MemberState.ACTIVE)];
      CountMember(id, 1);
      Record(e);
    }

    method HandleMemberRemoved(e: Event)
      requires e.MemberRemoved? && Valid()
      modifies this
      ensures Handled(old(log), e)
    {
      var id := IdString(e.organizationId);
      var key := MemberKey(e.organizationId, e.member);
      if key in members {
        members := members[key := members[key].(state := MemberState.INACTIVE)];
        CountMember(id, -1);
      } else {
        var _ := GetOrCreateOrganization(id);
      }
      Record(e);
    }

    method HandleMemberStateUpdated(e: Event)
      requires e.MemberStateUpdated? && Valid()
      modifies this
      ensures Handled(old(log), e)
    {
      var key := MemberKey(e.organizationId, e.member);
      if key in members {
        var state := if e.newState == 0 then MemberState.INACTIVE
                     else if e.newState == 1 then MemberState.ACTIVE
                     else if e.newState == 2 then MemberState.PAUSED else MemberState.BANNED;
        members := members[key := members[key].(state := state)];
      }
      Record(e);
    }

    method SeeBoth(delegator: JsString, delegatee: JsString)
      modifies this`users
      ensures users == Seen(Seen(old(users), delegator), delegatee)
    {
      var _ := GetOrCreateUser(delegator);
      var _ := GetOrCreateUser(delegatee);
    }

    method HandleVotingDelegated(e: Event)
      requires e.VotingDelegated? && Valid()
      modifies this
      ensures Handled(old(log), e)
    {
      SeeBoth(ToHex(e.delegator), ToHex(e.delegatee));
      var id := IdString(e.organizationId);
      var _ := GetOrCreateOrganization(id);

      var from, to := MemberKey(e.organizationId, e.delegator), MemberKey(e.organizationId, e.delegatee);
      if from in members && to in members {
        var key := DelegationKey(e.organizationId, e.delegator, e.delegatee, e.blockTimestamp);
        delegations := delegations[key := Delegation(id, from, to, e.amount, e.timestamp, true)];
      }
      Record(e);
    }

    method HandleVotingUndelegated(e: Event)
      requires e.VotingUndelegated? && Valid()
      modifies this
      ensures Handled(old(log), e)
    {
      var key := DelegationKey(e.organizationId, e.delegator, e.delegatee, e.timestamp);
      if key in delegations {
        delegations := delegations[key := delegations[key].(active := false)];
      }
      Record(e);
    }

    // ----- registry.ts and signal.ts: what they write that the other mappings read -----

    /** `updateGlobalStats`: its own two counters are not modelled. */
    method HandleModuleChanged(e: Event)
      requires e.ModuleChanged? && Valid()
      modifies this
      ensures Handled(old(log), e)
    {
      var global := LoadOrNewStats();
      stats := Some(global);
      Record(e);
    }

    method HandleProposalCreated(e: Event)
      requires e.ProposalCreated? && Valid()
      modifies this
      ensures Handled(old(log), e)
    {
      TouchUser(UserKey(e.creator));
      var global := LoadOrNewStats();
      stats := Some(global);
      Record(e);
    }

    // ----- a run -----

    method Handle(e: Event)
      requires Valid()
      modifies this
      ensures Handled(old(log), e)
    {
      match e {
        case CampaignCreated(_, _, _) => HandleCampaignCreated(e);
        case CampaignStateChanged(_, _) => HandleCampaignStateChanged(e);
        case ContributionMade(_, _, _, _) => HandleContributionMade(e);
        case CampaignFinalized(_, _) => HandleCampaignFinalized(e);
        case ContributionRefunded(_, _, _, _) => HandleContributionRefunded(e);
        case OrganizationCreated(_, _, _, _) => HandleOrganizationCreated(e);
        case OrganizationStateChanged(_, _) => HandleOrganizationStateChanged(e);
        case StakeWithdrawn(_) => HandleStakeWithdrawn(e);
        case FactoryOrganizationCreated(_, _, _) => HandleFactoryOrganizationCreated(e);
        case MemberAdded(_, _) => HandleMemberAdded(e);
        case MemberRemoved(_, _) => HandleMemberRemoved(e);
        case MemberStateUpdated(_, _, _) => HandleMemberStateUpdated(e);
        case VotingDelegated(_, _, _, _, _, _) => HandleVotingDelegated(e);
        case VotingUndelegated(_, _, _, _) => HandleVotingUndelegated(e);
        case ModuleChanged => HandleModuleChanged(e);
        case ProposalCreated(_) => HandleProposalCreated(e);
      }
    }

    /** Indexing a sequence of events one by one reaches the replayed store. */
    method Run(events: seq<Event>)
      requires Valid()
      modifies this
      ensures Valid() && log == old(log) + events
      ensures Snapshot() == Replay(old(log) + events)
    {
      var i := 0;
      while i < |events|
        invariant 0 <= i <= |events|
        invariant Valid() && log == old(log) + events[..i]
      {
        Handle(events[i]);
        assert events[..i + 1] == events[..i] + [events[i]];
        i := i + 1;
      }
      assert events[..i] == events;
    }
  }
}
