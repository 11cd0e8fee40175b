/** The records of src/membership.ts and src/identity.ts, told from the log alone. */
module LegacyRecordLaws {
  import opened Text
  import opened Tally
  import opened Runs
  import opened LegacyStore
  import opened LegacyMembershipLaws
  import opened LegacyVotingLaws

  // ----- delegation records -----

  /** Event `i` is an accepted delegation or undelegation with these parts. */
  ghost predicate Votes(start: Organizations, log: seq<Event>, i: nat, t: Triple, timestamp: nat)
  {
    && i < |log| && (log[i].VotingDelegated? || log[i].VotingUndelegated?)
    && (log[i].organizationId, log[i].delegator, log[i].delegatee) == t && log[i].timestamp == timestamp
    && Accepted(start, log[..i], log[i])
  }

  lemma VotesBefore(start: Organizations, log: seq<Event>, i: nat, t: Triple, timestamp: nat)
    requires i < |log| - 1
    ensures Votes(start, log, i, t, timestamp) <==> Votes(start, Before(log), i, t, timestamp)
  {
    Shorten(log);
  }

  /** Everything the record with these parts holds. */
  ghost predicate Records(s: Store, t: Triple, timestamp: nat, amount: int, active: bool)
  {
    var key := DelegationKey(t.0, t.1, t.2, timestamp);
    key in s.delegations &&
    s.delegations[key] == Delegation(ToHex(t.0), MemberKey(t.0, t.1), MemberKey(t.0, t.2), amount, active)
  }

  lemma RecordsAfter(start: Organizations, log: seq<Event>, t: Triple, timestamp: nat, amount: int, active: bool)
    requires log != [] && Records(Replay(start, Before(log)), t, timestamp, amount, active)
    requires !Votes(start, log, |log| - 1, t, timestamp)
    ensures Records(Replay(start, log), t, timestamp, amount, active)
  {
    var pre, e := Before(log), Last(log);
    Shorten(log);
    AcceptedIff(start, pre, e);
    if Saves(Replay(start, pre), e) {
      VotesSaved(Replay(start, pre), e);
      DelegationKeyInjective(t.0, t.1, t.2, timestamp, e.organizationId, e.delegator, e.delegatee, e.timestamp);
    } else {
      VotesFrame(Replay(start, pre), e);
    }
  }

  /** For every run: under the id of a delegation stands what the latest accepted delegation or undelegation with these
      parts says: active with its amount, or inactive with the amount negated. */
  lemma {:induction false} VoteFromLog(start: Organizations, log: seq<Event>, i: nat, t: Triple, timestamp: nat)
    requires Votes(start, log, i, t, timestamp)
    requires forall j: nat :: i < j ==> !Votes(start, log, j, t, timestamp)
    ensures log[i].VotingDelegated? ==> Records(Replay(start, log), t, timestamp, log[i].amount, true)
    ensures log[i].VotingUndelegated? ==> Records(Replay(start, log), t, timestamp, -log[i].amount, false)
  {
    var pre, e := Before(log), Last(log);
    Shorten(log);
    if i < |log| - 1 {
      forall j: nat
        ensures i < j ==> !Votes(start, pre, j, t, timestamp)
      {
        if j < |pre| {
          VotesBefore(start, log, j, t, timestamp);
        }
      }
      VotesBefore(start, log, i, t, timestamp);
      VoteFromLog(start, pre, i, t, timestamp);
      RecordsAfter(start, log, t, timestamp,
                   if log[i].VotingDelegated? then log[i].amount else -log[i].amount, log[i].VotingDelegated?);
    } else {
      AcceptedIff(start, pre, e);
      VotesSaved(Replay(start, pre), e);
    }
  }

  lemma AnyVoteStep(start: Organizations, log: seq<Event>, t: Triple, timestamp: nat)
    requires log != []
    ensures (exists i: nat :: Votes(start, log, i, t, timestamp)) <==>
            (exists i: nat :: Votes(start, Before(log), i, t, timestamp)) || Votes(start, log, |log| - 1, t, timestamp)
  {
    if i: nat :| Votes(start, log, i, t, timestamp) {
      if i < |log| - 1 {
        VotesBefore(start, log, i, t, timestamp);
      }
    }
    if i: nat :| Votes(start, Before(log), i, t, timestamp) {
      VotesBefore(start, log, i, t, timestamp);
    }
  }

  /** For every run: a record with given parts is stored exactly if a delegation or undelegation with them was
      accepted. */
  lemma {:induction false} VoteStoredIff(start: Organizations, log: seq<Event>, t: Triple, timestamp: nat)
    ensures DelegationKey(t.0, t.1, t.2, timestamp) in Replay(start, log).delegations <==>
            exists i: nat :: Votes(start, log, i, t, timestamp)
  {
    if log != [] {
      var pre, e := Before(log), Last(log);
      VoteStoredIff(start, pre, t, timestamp);
      AnyVoteStep(start, log, t, timestamp);
      Shorten(log);
      AcceptedIff(start, pre, e);
      if Saves(Replay(start, pre), e) {
        VotesSaved(Replay(start, pre), e);
        DelegationKeyInjective(t.0, t.1, t.2, timestamp, e.organizationId, e.delegator, e.delegatee, e.timestamp);
      } else {
        VotesFrame(Replay(start, pre), e);
      }
    }
  }

  /** For every run: a record is stored only under the id of some delegation or undelegation of the run. */
  lemma VoteIdFromLog(start: Organizations, log: seq<Event>, key: JsString)
    requires key in Replay(start, log).delegations
    ensures exists i :: 0 <= i < |log| && (log[i].VotingDelegated? || log[i].VotingUndelegated?)
              && key == DelegationKey(log[i].organizationId, log[i].delegator, log[i].delegatee, log[i].timestamp)
  {
    var i := VoteOrigin(start, log, key);
  }

  // ----- member states -----

  /** The events that decide the state of a member: additions to a stored organization and state updates. */
  ghost predicate DecidesMember(start: Organizations, e: Event, o: Bytes, m: Bytes)
  {
    (Accepts(start, e) || e.MemberStateUpdated?) && (e.organizationId, e.memberAddress) == (o, m)
  }

  /** For every run: the state of a known member is the one its latest addition or state update carries. */
  lemma {:induction false} MemberStateFromLog(start: Organizations, log: seq<Event>, i: nat, o: Bytes, m: Bytes)
    requires Latest(log, i, e => DecidesMember(start, e, o, m)) && (o, m) in Known(start, log)
    ensures var members, key := Replay(start, log).members, MemberKey(o, m);
            key in members &&
            members[key].state == if log[i].MemberAdded? then log[i].state else log[i].newState
  {
    var pre, e := Before(log), Last(log);
    LatestStep(log, i, e => DecidesMember(start, e, o, m));
    if i < |log| - 1 {
      MemberStateFromLog(start, pre, i, o, m);
    }
    MemberStoredIff(start, pre, o, m);
    MembershipConservation(start, pre);
    MembersAfter(Replay(start, pre), e, MemberKey(o, m));
    if e.MemberAdded? || e.MemberStateUpdated? {
      MemberKeyInjective(o, m, e.organizationId, e.memberAddress);
    }
  }

  // ----- profiles -----

  ghost predicate CreatesProfile(e: Event, p: Bytes)
  {
    e.ProfileCreated? && e.profileId == p
  }

  ghost predicate VerifiedSince(log: seq<Event>, i: nat, p: Bytes)
  {
    exists j :: i < j < |log| && log[j] == ProfileVerified(p)
  }

  lemma VerifiedSinceStep(log: seq<Event>, i: nat, p: Bytes)
    requires i < |log| - 1
    ensures VerifiedSince(log, i, p) <==> VerifiedSince(Before(log), i, p) || Last(log) == ProfileVerified(p)
  {
    Shorten(log);
    if VerifiedSince(Before(log), i, p) {
      var j :| i < j < |Before(log)| && Before(log)[j] == ProfileVerified(p);
      assert log[j] == ProfileVerified(p);
    }
    assert log[|log| - 1] == Last(log);
  }

  lemma ProfileAfter(s: Store, e: Event, p: Bytes)
    requires ToHex(p) in s.profiles || CreatesProfile(e, p)
    ensures var profiles := Step(s, e).profiles;
            && ToHex(p) in profiles
            && (CreatesProfile(e, p) ==> profiles[ToHex(p)] == Profile(ToHex(e.owner), false))
            && (!CreatesProfile(e, p) ==>
                  profiles[ToHex(p)].owner == s.profiles[ToHex(p)].owner &&
                  profiles[ToHex(p)].verified == (s.profiles[ToHex(p)].verified || e == ProfileVerified(p)))
  {
    if (e.ProfileCreated? || e.ProfileVerified?) && ToHex(e.profileId) == ToHex(p) {
      ToHexInjective(e.profileId, p);
    }
  }

  /** For every run: a profile belongs to the owner of its latest creation and is verified exactly if a verification
      has followed that creation. */
  lemma {:induction false} ProfileFromLog(start: Organizations, log: seq<Event>, i: nat, p: Bytes)
    requires Latest(log, i, e => CreatesProfile(e, p))
    ensures var profiles := Replay(start, log).profiles;
            && ToHex(p) in profiles && profiles[ToHex(p)].owner == ToHex(log[i].owner)
            && (profiles[ToHex(p)].verified <==> VerifiedSince(log, i, p))
  {
    var pre, e := Before(log), Last(log);
    LatestStep(log, i, e => CreatesProfile(e, p));
    if i < |log| - 1 {
      ProfileFromLog(start, pre, i, p);
      VerifiedSinceStep(log, i, p);
    }
    ProfileAfter(Replay(start, pre), e, p);
  }

  /** For every run: totalProfiles is the number of profile creations. */
  lemma {:induction false} TotalProfilesFromLog(start: Organizations, log: seq<Event>)
    ensures StatsOf(Replay(start, log).stats).totalProfiles == Count(log, (e: Event) => e.ProfileCreated?)
  {
    if log != [] {
      TotalProfilesFromLog(start, Before(log));
      TotalProfilesAfter(Replay(start, Before(log)), Last(log));
    }
  }

  lemma TotalProfilesAfter(s: Store, e: Event)
    ensures StatsOf(Step(s, e).stats).totalProfiles == StatsOf(s.stats).totalProfiles + One(e.ProfileCreated?)
  {
  }

  // ----- users -----

  ghost predicate NamesUser(start: Organizations, e: Event, b: Bytes)
  {
    (Accepts(start, e) && e.memberAddress == b) || (e.ProfileCreated? && e.owner == b)
  }

  lemma UserAfter(start: Organizations, s: Store, e: Event, b: Bytes)
    requires Anchored(start, s)
    ensures ToHex(b) in Step(s, e).users <==> ToHex(b) in s.users || NamesUser(start, e, b)
  {
    if e.MemberAdded? && ToHex(e.memberAddress) == ToHex(b) {
      ToHexInjective(e.memberAddress, b);
    }
    if e.ProfileCreated? && ToHex(e.owner) == ToHex(b) {
      ToHexInjective(e.owner, b);
    }
  }

  /** For every run: a user is stored exactly if added to a stored organization or owner of a created profile. */
  lemma {:induction false} UserStoredIff(start: Organizations, log: seq<Event>, b: Bytes)
    ensures ToHex(b) in Replay(start, log).users <==> Count(log, e => NamesUser(start, e, b)) > 0
  {
    if log != [] {
      UserStoredIff(start, Before(log), b);
      MembershipConservation(start, Before(log));
      UserAfter(start, Replay(start, Before(log)), Last(log), b);
    }
  }
}
