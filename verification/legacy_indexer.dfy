/** The handlers of src/membership.ts and src/identity.ts as they run over the stored tables. */
module LegacyIndexer {
  import opened Text
  import opened Runs
  import opened LegacyStore

  class Indexer {
    var organizations: Organizations
    var users: map<JsString, User>
    var members: map<JsString, Member>
    var delegations: map<JsString, Delegation>
    var profiles: map<JsString, Profile>
    var stats: Option<Stats>
    ghost const start: Organizations
    ghost var log: seq<Event>

    ghost function Snapshot(): Store
      reads this
    {
      Store(organizations, users, members, delegations, profiles, stats)
    }

    /** The tables hold exactly what the handled events leave behind, from the starting organizations on. */
    ghost predicate Valid()
      reads this
    {
      Snapshot() == Replay(start, log)
    }

    ghost predicate Handled(before: seq<Event>, e: Event)
      reads this
    {
      Valid() && log == before + [e]
    }

    constructor (organizations: Organizations)
      ensures Valid() && log == [] && start == organizations
    {
      this.organizations, start := organizations, organizations;
      users, members, delegations, profiles, stats := map[], map[], map[], map[], None;
      log := [];
    }

    ghost method Record(e: Event)
      requires var next := Step(Replay(start, log), e);
               && organizations == next.organizations && users == next.users && members == next.members
               && delegations == next.delegations && profiles == next.profiles && stats == next.stats
      modifies this`log
      ensures Handled(old(log), e)
    {
      log := log + [e];
      assert Before(log) == old(log);
    }

    method LoadOrNewStats() returns (globalStats: Stats)
      ensures globalStats == StatsOf(stats)
    {
      if stats.Some? {
        globalStats := stats.value;
      } else {
        globalStats := Stats(0, 0, 0, 0, 0, 0);
      }
    }

    method HandleMemberAdded(e: Event)
      requires e.MemberAdded? && Valid()
      modifies this
      ensures Handled(old(log), e)
    {
      var organizationId := ToHex(e.organizationId);
      if organizationId !in organizations {
        Record(e);
        return;
      }
      var organization := organizations[organizationId];

      var userId := ToHex(e.memberAddress);
      var user := if userId in users then users[userId] else User(0);
      user := user.(totalMemberships := user.totalMemberships + 1);
      users := users[userId := user];

      members := members[MemberKey(e.organizationId, e.memberAddress) := Member(organizationId, userId, e.state)];

      organization := organization.(memberCount := organization.memberCount + 1);
      organizations := organizations[organizationId := organization];

      var globalStats := LoadOrNewStats();
      globalStats := globalStats.(totalMembers := globalStats.totalMembers + 1);
      if e.state == ACTIVE {
        globalStats := globalStats.(totalActiveMemberships := globalStats.totalActiveMemberships + 1);
      }
      stats := Some(globalStats);
      Record(e);
    }

    method HandleMemberRemoved(e: Event)
      requires e.MemberRemoved? && Valid()
      modifies this
      ensures Handled(old(log), e)
    {
      var memberId := MemberKey(e.organizationId, e.memberAddress);
      if memberId !in members {
        Record(e);
        return;
      }
      var member := members[memberId];
      if member.organization in organizations {
        var organization := organizations[member.organization];
        organization := organization.(memberCount := organization.memberCount - 1);
        organizations := organizations[member.organization := organization];
      }
      if member.user in users {
        var user := users[member.user];
        user := user.(totalMemberships := user.totalMemberships - 1);
        users := users[member.user := user];
      }
      if stats.Some? {
        var globalStats := stats.value;
        globalStats := globalStats.(totalMembers := globalStats.totalMembers - 1);
        if member.state == ACTIVE {
          globalStats := globalStats.(totalActiveMemberships := globalStats.totalActiveMemberships - 1);
        }
        stats := Some(globalStats);
      }
      Record(e);
    }

    method HandleMemberStateUpdated(e: Event)
      requires e.MemberStateUpdated? && Valid()
      modifies this
      ensures Handled(old(log), e)
    {
      var memberId := MemberKey(e.organizationId, e.memberAddress);
      if memberId in members {
        var member := members[memberId];
        var oldState := member.state;
        member := member.(state := e.newState);
        members := members[memberId := member];
        if stats.Some? {
          var globalStats := stats.value;
          if oldState != ACTIVE && e.newState == ACTIVE {
            globalStats := globalStats.(totalActiveMemberships := globalStats.totalActiveMemberships + 1);
          } else if oldState == ACTIVE && e.newState != ACTIVE {
            globalStats := globalStats.(totalActiveMemberships := globalStats.totalActiveMemberships - 1);
          }
          stats := Some(globalStats);
        }
      }
      Record(e);
    }

    method HandleVotingPowerUpdated(e: Event)
      requires e.VotingPowerUpdated? && Valid()
      modifies this
      ensures Handled(old(log), e)
    {
      if MemberKey(e.organizationId, e.memberAddress) in members && stats.Some? {
        var globalStats := stats.value;
        globalStats := globalStats.(
          totalVotingPower := globalStats.totalVotingPower + (e.newVotingPower - e.oldVotingPower));
        stats := Some(globalStats);
      }
      Record(e);
    }

    method HandleVotingDelegated(e: Event)
      requires e.VotingDelegated? && Valid()
      modifies this
      ensures Handled(old(log), e)
    {
      var organizationId := ToHex(e.organizationId);
      var delegatorId := MemberKey(e.organizationId, e.delegator);
      var delegateeId := MemberKey(e.organizationId, e.delegatee);
      if organizationId !in organizations || delegatorId !in members || delegateeId !in members {
        Record(e);
        return;
      }
      delegations := delegations[VoteKey(e) := Delegation(organizationId, delegatorId, delegateeId, e.amount, true)];
      if stats.Some? {
        stats := Some(stats.value.(totalDelegations := stats.value.totalDelegations + 1));
      }
      Record(e);
    }

    method HandleVotingUndelegated(e: Event)
      requires e.VotingUndelegated? && Valid()
      modifies this
      ensures Handled(old(log), e)
    {
      var delegation := Delegation(ToHex(e.organizationId), MemberKey(e.organizationId, e.delegator),
                                   MemberKey(e.organizationId, e.delegatee), 0 - e.amount, false);
      delegations := delegations[VoteKey(e) := delegation];
      Record(e);
    }

    method HandleProfileCreated(e: Event)
      requires e.ProfileCreated? && Valid()
      modifies this
      ensures Handled(old(log), e)
    {
      var userId := ToHex(e.owner);
      if userId !in users {
        users := users[userId := User(0)];
      }
      profiles := profiles[ToHex(e.profileId) := Profile(userId, false)];
      var globalStats := LoadOrNewStats();
      globalStats := globalStats.(totalProfiles := globalStats.totalProfiles + 1);
      stats := Some(globalStats);
      Record(e);
    }

    method HandleProfileVerified(e: Event)
      requires e.ProfileVerified? && Valid()
      modifies this
      ensures Handled(old(log), e)
    {
      var profileId := ToHex(e.profileId);
      if profileId in profiles {
        profiles := profiles[profileId := profiles[profileId].(verified := true)];
        if stats.Some? {
          stats := Some(stats.value.(verifiedProfiles := stats.value.verifiedProfiles + 1));
        }
      }
      Record(e);
    }

    method Handle(e: Event)
      requires Valid()
      modifies this
      ensures Handled(old(log), e)
    {
      match e {
        case MemberAdded(_, _, _) => HandleMemberAdded(e);
        case MemberRemoved(_, _) => HandleMemberRemoved(e);
        case MemberStateUpdated(_, _, _) => HandleMemberStateUpdated(e);
        case VotingPowerUpdated(_, _, _, _) => HandleVotingPowerUpdated(e);
        case VotingDelegated(_, _, _, _, _) => HandleVotingDelegated(e);
        case VotingUndelegated(_, _, _, _, _) => HandleVotingUndelegated(e);
        case ProfileCreated(_, _) => HandleProfileCreated(e);
        case ProfileVerified(_) => HandleProfileVerified(e);
      }
    }

    method Run(events: seq<Event>)
      requires Valid()
      modifies this
      ensures Valid() && log == old(log) + events
      ensures Snapshot() == Replay(start, old(log) + events)
    {
      var i := 0;
      while i < |events|
        invariant 0 <= i <= |events|
        invariant Valid() && log == old(log) + events[..i]
      {
        Handle(events[i]);
        assert events[..i + 1] == events[..i] + [events[i]];
        i := i + 1;
      }
      assert events[..i] == events;
    }
  }
}
