/**
 * The voting side of src/membership.ts: delegation records and `totalDelegations` against the delegation
 * events, and `totalVotingPower` against the members' first and last reported powers.
 */
module LegacyVotingLaws {
  import opened Text
  import opened Tally
  import opened Runs
  import opened LegacyStore
  import opened LegacyMembershipLaws

  // ----- totalDelegations against the active records -----

  ghost function ActiveRecords(delegations: map<JsString, Delegation>): set<JsString>
  {
    set k | k in delegations && delegations[k].active
  }

  ghost predicate MembersHaveStats(s: Store)
  {
    s.members != map[] ==> s.stats.Some?
  }

  ghost function DelegationGap(s: Store): int
  {
    StatsOf(s.stats).totalDelegations - |ActiveRecords(s.delegations)|
  }

  ghost predicate Saves(s: Store, e: Event)
  {
    e.VotingUndelegated? || (e.VotingDelegated? && PartiesStored(s, VoteRecord(e)))
  }

  /** The event's record replaces one that is active. */
  ghost predicate ReplacesActive(s: Store, e: Event)
  {
    Saves(s, e) && VoteKey(e) in ActiveRecords(s.delegations)
  }

  ghost function DelegationSlip(s: Store, e: Event): int
  {
    if ReplacesActive(s, e) then 1 else 0
  }

  lemma VotesFrame(s: Store, e: Event)
    requires !Saves(s, e)
    ensures Step(s, e).delegations == s.delegations
    ensures StatsOf(Step(s, e).stats).totalDelegations == StatsOf(s.stats).totalDelegations
  {
  }

  lemma VotesSaved(s: Store, e: Event)
    requires Saves(s, e)
    ensures Step(s, e).delegations == s.delegations[VoteKey(e) := VoteRecord(e)]
    ensures MembersHaveStats(s) ==>
              StatsOf(Step(s, e).stats).totalDelegations == StatsOf(s.stats).totalDelegations + One(e.VotingDelegated?)
  {
  }

  lemma MembersHaveStatsStep(s: Store, e: Event)
    requires MembersHaveStats(s)
    ensures MembersHaveStats(Step(s, e))
  {
  }

  lemma ActiveAfterSave(delegations: map<JsString, Delegation>, key: JsString, d: Delegation)
    ensures |ActiveRecords(delegations[key := d])| ==
            |ActiveRecords(delegations)| + One(d.active) - One(key in ActiveRecords(delegations))
  {
    var was, now := ActiveRecords(delegations), ActiveRecords(delegations[key := d]);
    if d.active {
      assert now == was + {key};
    } else {
      assert now == was - {key};
    }
  }

  lemma DelegationStep(s: Store, e: Event)
    requires MembersHaveStats(s)
    ensures MembersHaveStats(Step(s, e))
    ensures DelegationGap(Step(s, e)) == DelegationGap(s) + DelegationSlip(s, e)
  {
    MembersHaveStatsStep(s, e);
    if Saves(s, e) {
      VotesSaved(s, e);
      ActiveAfterSave(s.delegations, VoteKey(e), VoteRecord(e));
    } else {
      VotesFrame(s, e);
    }
  }

  /** For every run: totalDelegations is at least the number of active records, and exactly that number if and
      only if no delegation or undelegation was saved over an active record. */
  lemma TotalDelegationsLaw(start: Organizations, log: seq<Event>)
    ensures StatsOf(Replay(start, log).stats).totalDelegations >= |ActiveRecords(Replay(start, log).delegations)|
    ensures StatsOf(Replay(start, log).stats).totalDelegations == |ActiveRecords(Replay(start, log).delegations)|
            <==> forall n :: 0 <= n < |log| ==> !ReplacesActive(Replay(start, log[..n]), log[n])
  {
    assert ActiveRecords(Initial(start).delegations) == {};
    forall s, e | MembersHaveStats(s)
      ensures MembersHaveStats(Step(s, e)) && DelegationGap(Step(s, e)) == DelegationGap(s) + DelegationSlip(s, e)
    {
      DelegationStep(s, e);
    }
    DriftLaw(Step, Initial(start), log, MembersHaveStats, DelegationGap, DelegationSlip);
    DriftNonNegative(Step, Initial(start), log, DelegationSlip);
    assert forall n :: 0 <= n < |log| ==>
      (DelegationSlip(Replay(start, log[..n]), log[n]) == 0 <==> !ReplacesActive(Replay(start, log[..n]), log[n]));
  }

  // ----- record amounts -----

  /** A delegation counts if its organization exists and both parties are known; an undelegation always does. */
  ghost predicate Accepted(start: Organizations, before: seq<Event>, e: Event)
  {
    || e.VotingUndelegated?
    || (e.VotingDelegated? && ToHex(e.organizationId) in start
        && (e.organizationId, e.delegator) in Known(start, before)
        && (e.organizationId, e.delegatee) in Known(start, before))
  }

  lemma AcceptedIff(start: Organizations, before: seq<Event>, e: Event)
    ensures Saves(Replay(start, before), e) <==> Accepted(start, before, e)
  {
    if e.VotingDelegated? {
      MembershipConservation(start, before);
      MemberStoredIff(start, before, e.organizationId, e.delegator);
      MemberStoredIff(start, before, e.organizationId, e.delegatee);
    }
  }

  /** Where a stored record comes from. */
  lemma {:induction false} VoteOrigin(start: Organizations, log: seq<Event>, key: JsString) returns (i: nat)
    requires key in Replay(start, log).delegations
    ensures i < |log| && MovesVotes(log[i]) && VoteKey(log[i]) == key
    ensures VoteRecord(log[i]) == Replay(start, log).delegations[key]
  {
    var s, e := Replay(start, Before(log)), Last(log);
    if Saves(s, e) {
      VotesSaved(s, e);
      if VoteKey(e) == key {
        return |log| - 1;
      }
    } else {
      VotesFrame(s, e);
    }
    i := VoteOrigin(start, Before(log), key);
  }

  type Triple = (Bytes, Bytes, Bytes)

  ghost predicate RecordOf(d: Delegation, t: Triple)
  {
    d.organization == ToHex(t.0) && d.delegator == MemberKey(t.0, t.1) && d.delegatee == MemberKey(t.0, t.2)
  }

  ghost predicate EventOf(e: Event, t: Triple)
  {
    MovesVotes(e) && (e.organizationId, e.delegator, e.delegatee) == t
  }

  lemma RecordOfIff(e: Event, t: Triple)
    requires MovesVotes(e)
    ensures RecordOf(VoteRecord(e), t) <==> EventOf(e, t)
  {
    MemberKeyInjective(e.organizationId, e.delegator, t.0, t.1);
    MemberKeyInjective(e.organizationId, e.delegatee, t.0, t.2);
  }

  /** The amounts of all records of one organization, delegator and delegatee. */
  ghost function Held(delegations: map<JsString, Delegation>, t: Triple): map<JsString, int>
  {
    map k | k in delegations && RecordOf(delegations[k], t) :: delegations[k].amount
  }

  /** Delegated minus undelegated amounts of a triple, over the accepted events. */
  ghost function Net(start: Organizations, log: seq<Event>, t: Triple): int
  {
    if log == [] then 0 else
      var pre, e := Before(log), Last(log);
      if !EventOf(e, t) || !Accepted(start, pre, e) then Net(start, pre, t)
      else if e.VotingDelegated? then Net(start, pre, t) + e.amount
      else Net(start, pre, t) - e.amount
  }

  /** The amounts of a triple's records that were saved over. */
  ghost function Lost(start: Organizations, log: seq<Event>, t: Triple): int
  {
    if log == [] then 0 else
      var s, e := Replay(start, Before(log)), Last(log);
      Lost(start, Before(log), t) +
      if EventOf(e, t) && Saves(s, e) && VoteKey(e) in s.delegations then s.delegations[VoteKey(e)].amount else 0
  }

  lemma HeldAfterSave(delegations: map<JsString, Delegation>, key: JsString, d: Delegation, t: Triple)
    requires key in delegations ==> (RecordOf(delegations[key], t) <==> RecordOf(d, t))
    ensures Total(Held(delegations[key := d], t)) ==
            Total(Held(delegations, t)) +
            if RecordOf(d, t) then d.amount - (if key in delegations then delegations[key].amount else 0) else 0
  {
    if RecordOf(d, t) {
      assert Held(delegations[key := d], t) == Held(delegations, t)[key := d.amount];
      TotalUpdate(Held(delegations, t), key, d.amount);
    } else {
      assert Held(delegations[key := d], t) == Held(delegations, t);
    }
  }

  lemma SameKeySameTriple(start: Organizations, log: seq<Event>, e: Event, t: Triple)
    requires MovesVotes(e) && VoteKey(e) in Replay(start, log).delegations
    ensures RecordOf(Replay(start, log).delegations[VoteKey(e)], t) <==> RecordOf(VoteRecord(e), t)
  {
    var i := VoteOrigin(start, log, VoteKey(e));
    DelegationKeyInjective(log[i].organizationId, log[i].delegator, log[i].delegatee, log[i].timestamp,
                           e.organizationId, e.delegator, e.delegatee, e.timestamp);
    RecordOfIff(e, t);
    RecordOfIff(log[i], t);
  }

  /** For every run: a triple's records sum to delegated minus undelegated, less what was saved over. */
  lemma {:induction false} HeldLaw(start: Organizations, log: seq<Event>, t: Triple)
    ensures Total(Held(Replay(start, log).delegations, t)) == Net(start, log, t) - Lost(start, log, t)
  {
    if log == [] {
      assert Held(Initial(start).delegations, t) == map[];
    } else {
      var pre, e := Before(log), Last(log);
      var s := Replay(start, pre);
      HeldLaw(start, pre, t);
      AcceptedIff(start, pre, e);
      if Saves(s, e) {
        VotesSaved(s, e);
        RecordOfIff(e, t);
        if VoteKey(e) in s.delegations {
          SameKeySameTriple(start, pre, e, t);
        }
        HeldAfterSave(s.delegations, VoteKey(e), VoteRecord(e), t);
      } else {
        VotesFrame(s, e);
      }
    }
  }

  /** No two delegations or undelegations share organization, delegator, delegatee and timestamp. */
  ghost predicate VotesDistinct(log: seq<Event>)
  {
    forall i, j :: 0 <= i < j < |log| && MovesVotes(log[i]) && MovesVotes(log[j]) ==>
      (log[i].organizationId, log[i].delegator, log[i].delegatee, log[i].timestamp)
      != (log[j].organizationId, log[j].delegator, log[j].delegatee, log[j].timestamp)
  }

  lemma DistinctKeysAreFresh(start: Organizations, log: seq<Event>, n: nat)
    requires VotesDistinct(log) && n < |log| && MovesVotes(log[n])
    ensures VoteKey(log[n]) !in Replay(start, log[..n]).delegations
  {
    if VoteKey(log[n]) in Replay(start, log[..n]).delegations {
      var i := VoteOrigin(start, log[..n], VoteKey(log[n]));
      DelegationKeyInjective(log[i].organizationId, log[i].delegator, log[i].delegatee, log[i].timestamp,
                             log[n].organizationId, log[n].delegator, log[n].delegatee, log[n].timestamp);
    }
  }

  lemma {:induction false} NothingLost(start: Organizations, log: seq<Event>, t: Triple)
    requires VotesDistinct(log)
    ensures Lost(start, log, t) == 0
  {
    if log != [] {
      NothingLost(start, Before(log), t);
      Shorten(log);
      if MovesVotes(Last(log)) {
        DistinctKeysAreFresh(start, log, |log| - 1);
      }
    }
  }

  /** If no key is used twice, each triple's records sum to delegated minus undelegated and totalDelegations is
      the number of active records. */
  lemma DelegationsFromLog(start: Organizations, log: seq<Event>, t: Triple)
    requires VotesDistinct(log)
    ensures Total(Held(Replay(start, log).delegations, t)) == Net(start, log, t)
    ensures StatsOf(Replay(start, log).stats).totalDelegations == |ActiveRecords(Replay(start, log).delegations)|
  {
    HeldLaw(start, log, t);
    NothingLost(start, log, t);
    forall n | 0 <= n < |log|
      ensures !ReplacesActive(Replay(start, log[..n]), log[n])
    {
      if MovesVotes(log[n]) {
        DistinctKeysAreFresh(start, log, n);
      }
    }
    TotalDelegationsLaw(start, log);
  }

  // ----- voting power -----

  /** A member's first reported old power and last reported new power. */
  datatype Span = Span(first: int, last: int)

  /** A voting-power event is handled when its member entity exists. */
  ghost predicate Reports(start: Organizations, before: seq<Event>, e: Event)
  {
    e.VotingPowerUpdated? && (e.organizationId, e.memberAddress) in Known(start, before)
  }

  ghost function Spans(start: Organizations, log: seq<Event>): map<Pair, Span>
  {
    if log == [] then map[] else
      var was, e := Spans(start, Before(log)), Last(log);
      if !Reports(start, Before(log), e) then was else
        var p := (e.organizationId, e.memberAddress);
        was[p := Span(if p in was then was[p].first else e.oldVotingPower, e.newVotingPower)]
  }

  ghost function Changes(spans: map<Pair, Span>): map<Pair, int>
  {
    map p | p in spans :: spans[p].last - spans[p].first
  }

  /** How far the old power an event reports lies above the member's previous new power. */
  ghost function Jump(start: Organizations, before: seq<Event>, e: Event): int
  {
    if !Reports(start, before, e) then 0 else
      var p, was := (e.organizationId, e.memberAddress), Spans(start, before);
      if p in was then e.oldVotingPower - was[p].last else 0
  }

  ghost function Jumps(start: Organizations, log: seq<Event>): int
  {
    if log == [] then 0 else Jumps(start, Before(log)) + Jump(start, Before(log), Last(log))
  }

  lemma PowerStep(s: Store, e: Event)
    ensures StatsOf(Step(s, e).stats).totalVotingPower == StatsOf(s.stats).totalVotingPower +
              if e.VotingPowerUpdated? && MemberKey(e.organizationId, e.memberAddress) in s.members && s.stats.Some?
              then e.newVotingPower - e.oldVotingPower else 0
  {
  }

  lemma ChangesAfterSave(spans: map<Pair, Span>, p: Pair, span: Span)
    ensures Total(Changes(spans[p := span])) ==
            Total(Changes(spans)) + (span.last - span.first)
            - (if p in spans then spans[p].last - spans[p].first else 0)
  {
    assert Changes(spans[p := span]) == Changes(spans)[p := span.last - span.first];
    TotalUpdate(Changes(spans), p, span.last - span.first);
  }

  lemma ChangesStep(start: Organizations, log: seq<Event>)
    requires log != []
    ensures var pre, e := Before(log), Last(log);
            Total(Changes(Spans(start, log))) == Total(Changes(Spans(start, pre))) + Jump(start, pre, e) +
              if Reports(start, pre, e) then e.newVotingPower - e.oldVotingPower else 0
  {
    var pre, e := Before(log), Last(log);
    if Reports(start, pre, e) {
      var p := (e.organizationId, e.memberAddress);
      ChangesAfterSave(Spans(start, pre), p, Spans(start, log)[p]);
    }
  }

  /** For every run, whatever the interleaving of members: totalVotingPower is the sum over members of last new
      power minus first old power, less the jumps between consecutive reports of one member. */
  lemma {:induction false} VotingPowerLaw(start: Organizations, log: seq<Event>)
    ensures StatsOf(Replay(start, log).stats).totalVotingPower == Total(Changes(Spans(start, log))) - Jumps(start, log)
  {
    if log == [] {
      assert Changes(Spans(start, log)) == map[];
    } else {
      var pre, e := Before(log), Last(log);
      VotingPowerLaw(start, pre);
      PowerStep(Replay(start, pre), e);
      ChangesStep(start, log);
      MembershipConservation(start, pre);
      if e.VotingPowerUpdated? {
        MemberStoredIff(start, pre, e.organizationId, e.memberAddress);
      }
    }
  }

  /** Each report's old power is that member's previous new power. */
  ghost predicate Chained(start: Organizations, log: seq<Event>)
  {
    forall n :: 0 <= n < |log| ==> Jump(start, log[..n], log[n]) == 0
  }

  ghost predicate Telescopes(start: Organizations, log: seq<Event>)
  {
    StatsOf(Replay(start, log).stats).totalVotingPower == Total(Changes(Spans(start, log)))
  }

  ghost predicate AlwaysTelescopes(start: Organizations, log: seq<Event>)
  {
    forall n :: 0 <= n <= |log| ==> Telescopes(start, log[..n])
  }

  lemma {:induction false} ChainedHasNoJumps(start: Organizations, log: seq<Event>)
    requires Chained(start, log)
    ensures Jumps(start, log) == 0
  {
    if log != [] {
      Shorten(log);
      ChainedHasNoJumps(start, Before(log));
    }
  }

  lemma TelescopesStep(start: Organizations, log: seq<Event>)
    requires log != [] && Telescopes(start, Before(log))
    ensures Telescopes(start, log) <==> Jump(start, Before(log), Last(log)) == 0
  {
    VotingPowerLaw(start, Before(log));
    VotingPowerLaw(start, log);
  }

  /** totalVotingPower telescopes after every event if and only if every member's reports form a chain. */
  lemma TelescopesIff(start: Organizations, log: seq<Event>)
    ensures AlwaysTelescopes(start, log) <==> Chained(start, log)
  {
    var ok, keeps := h => Telescopes(start, h), (h, e) => Jump(start, h, e) == 0;
    VotingPowerLaw(start, []);
    forall h | h != [] && ok(Before(h))
      ensures ok(h) <==> keeps(Before(h), Last(h))
    {
      TelescopesStep(start, h);
    }
    HoldsIff(log, ok, keeps);
    assert forall n :: 0 <= n <= |log| ==> ok(log[..n]) == Telescopes(start, log[..n]);
    assert forall n :: 0 <= n < |log| ==> keeps(log[..n], log[n]) == (Jump(start, log[..n], log[n]) == 0);
  }

  /** When each report's old power is that member's previous new power, the total is the sum of last minus first. */
  lemma VotingPowerWhenChained(start: Organizations, log: seq<Event>)
    requires Chained(start, log)
    ensures Telescopes(start, log)
  {
    VotingPowerLaw(start, log);
    ChainedHasNoJumps(start, log);
  }
}
