/** Member and VotingDelegation records of packages/subgraph, told from the log alone. */
module MemberRecordLaws {
  import opened Text
  import opened Runs
  import opened SubgraphStore
  import opened MembershipLaws

  /** The events that decide the state of a member. */
  ghost predicate Decides(e: Event, o: Bytes8, m: Bytes)
  {
    (e.MemberAdded? || e.MemberRemoved? || e.MemberStateUpdated?) && e.organizationId == o && e.member == m
  }

  /** ACTIVE after an addition, INACTIVE after a removal, and by the code (0 INACTIVE, 1 ACTIVE, 2 PAUSED, any other
      BANNED) after a state update. */
  ghost predicate Says(e: Event, state: MemberState)
    requires e.MemberAdded? || e.MemberRemoved? || e.MemberStateUpdated?
  {
    match e
    case MemberAdded(_, _) => state == MemberState.ACTIVE
    case MemberRemoved(_, _) => state == MemberState.INACTIVE
    case MemberStateUpdated(_, _, n) =>
      && (state == MemberState.INACTIVE <==> n == 0) && (state == MemberState.ACTIVE <==> n == 1)
      && (state == MemberState.PAUSED <==> n == 2)
  }

  lemma MemberTable(s: Store, e: Event)
    ensures Step(s, e).members ==
            match e
            case MemberAdded(o, m) => s.members[MemberKey(o, m) := Member(IdString(o), ToHex(m), MemberState.ACTIVE)]
            case MemberRemoved(o, m) => Restated(s.members, MemberKey(o, m), MemberState.INACTIVE)
            case MemberStateUpdated(o, m, n) => Restated(s.members, MemberKey(o, m), MapMemberState(n))
            case _ => s.members
  {
  }

  function Restated(members: map<JsString, Member>, key: JsString, state: MemberState): map<JsString, Member>
  {
    if key in members then members[key := members[key].(state := state)] else members
  }

  lemma MemberAfter(s: Store, e: Event, o: Bytes8, m: Bytes)
    requires MemberKey(o, m) in s.members || e == MemberAdded(o, m)
    ensures var members, key := Step(s, e).members, MemberKey(o, m);
            && key in members
            && (Decides(e, o, m) ==> Says(e, members[key].state))
            && (!Decides(e, o, m) ==> members[key] == s.members[key])
            && (e == MemberAdded(o, m) ==> members[key].organization == IdString(o) && members[key].user == ToHex(m))
            && (e != MemberAdded(o, m) ==> members[key].organization == s.members[key].organization
                                           && members[key].user == s.members[key].user)
  {
    MemberTable(s, e);
    if e.MemberAdded? || e.MemberRemoved? || e.MemberStateUpdated? {
      MemberKeyInjective(o, m, e.organizationId, e.member);
    }
  }

  /** For every run: a member record names its organization and user. */
  lemma {:induction false} MemberLinks(log: seq<Event>, o: Bytes8, m: Bytes)
    requires Added(log, o, m)
    ensures var members, key := Replay(log).members, MemberKey(o, m);
            key in members && members[key].organization == IdString(o) && members[key].user == ToHex(m)
  {
    AddedStep(log, o, m);
    MemberStoredIff(Before(log), o, m);
    if Added(Before(log), o, m) {
      MemberLinks(Before(log), o, m);
    }
    MemberAfter(Replay(Before(log)), Last(log), o, m);
  }

  /** For every run: the state of a member once added is what the latest addition, removal or state update says. */
  lemma {:induction false} MemberFromLog(log: seq<Event>, i: nat, o: Bytes8, m: Bytes)
    requires Latest(log, i, e => Decides(e, o, m)) && Added(log, o, m)
    ensures MemberKey(o, m) in Replay(log).members && Says(log[i], Replay(log).members[MemberKey(o, m)].state)
  {
    LatestStep(log, i, e => Decides(e, o, m));
    AddedStep(log, o, m);
    MemberStoredIff(Before(log), o, m);
    if i < |log| - 1 {
      MemberFromLog(Before(log), i, o, m);
    }
    MemberAfter(Replay(Before(log)), Last(log), o, m);
  }

  // ----- delegation records -----

  /** A delegation record with these parts carries the amount and timestamp of event `e`. */
  ghost predicate Carries(s: Store, o: Bytes8, d: Bytes, r: Bytes, t: nat, e: Event)
    requires e.VotingDelegated?
  {
    var key := DelegationKey(o, d, r, t);
    && key in s.delegations
    && s.delegations[key].organization == IdString(o)
    && s.delegations[key].delegator == MemberKey(o, d) && s.delegations[key].delegatee == MemberKey(o, r)
    && s.delegations[key].amount == e.amount && s.delegations[key].timestamp == e.timestamp
  }

  lemma CarriesAfter(log: seq<Event>, o: Bytes8, d: Bytes, r: Bytes, t: nat, e: Event)
    requires log != [] && e.VotingDelegated? && Carries(Replay(Before(log)), o, d, r, t, e)
    requires !Delegates(log, |log| - 1, o, d, r, t)
    ensures Carries(Replay(log), o, d, r, t, e)
  {
    var pre, last := Before(log), Last(log);
    Shorten(log);
    if last.VotingDelegated? {
      DelegationSaved(Replay(pre), last);
      DelegationKeyInjective(o, d, r, t, last.organizationId, last.delegator, last.delegatee, last.blockTimestamp);
      MemberStoredIff(pre, last.organizationId, last.delegator);
      MemberStoredIff(pre, last.organizationId, last.delegatee);
    } else if !last.VotingUndelegated? {
      DelegationFrame(Replay(pre), last);
    }
  }

  /** For every run: the record of a block's delegation names its parties and carries the amount and the event's own
      timestamp of the latest stored delegation of that block, also once it is inactive. */
  lemma {:induction false} DelegationFromLog(log: seq<Event>, i: nat, o: Bytes8, d: Bytes, r: Bytes, t: nat)
    requires Delegates(log, i, o, d, r, t) && forall j: nat :: i < j ==> !Delegates(log, j, o, d, r, t)
    ensures Carries(Replay(log), o, d, r, t, log[i])
  {
    var pre := Before(log);
    Shorten(log);
    if i < |log| - 1 {
      SameEventsBefore(log, o, d, r, t);
      DelegationFromLog(pre, i, o, d, r, t);
      CarriesAfter(log, o, d, r, t, log[i]);
    } else {
      DelegationSaved(Replay(pre), Last(log));
      MemberStoredIff(pre, o, d);
      MemberStoredIff(pre, o, r);
    }
  }
}
