/**
 * `Organization.memberCount` of packages/subgraph against the membership relation that the member
 * events describe, and the delegation records against the delegation events.
 */
module MembershipLaws {
  import opened Text
  import opened Tally
  import opened Runs
  import opened SubgraphStore

  type Pair = (Bytes8, Bytes)

  /** Who belongs to what according to the member events alone. */
  ghost function Present(log: seq<Event>): set<Pair>
  {
    if log == [] then {}
    else if Last(log).MemberAdded? then Present(Before(log)) + {(Last(log).organizationId, Last(log).member)}
    else if Last(log).MemberRemoved? then Present(Before(log)) - {(Last(log).organizationId, Last(log).member)}
    else Present(Before(log))
  }

  ghost function Row(present: set<Pair>, o: Bytes8): set<Pair>
  {
    set p | p in present && p.0 == o
  }

  ghost predicate Added(log: seq<Event>, o: Bytes8, m: Bytes)
  {
    exists i :: 0 <= i < |log| && log[i] == MemberAdded(o, m)
  }

  lemma AddedStep(log: seq<Event>, o: Bytes8, m: Bytes)
    requires log != []
    ensures Added(log, o, m) <==> Added(Before(log), o, m) || Last(log) == MemberAdded(o, m)
  {
    if Added(Before(log), o, m) {
      var i :| 0 <= i < |Before(log)| && Before(log)[i] == MemberAdded(o, m);
      assert log[i] == MemberAdded(o, m);
    }
    if Added(log, o, m) && Last(log) != MemberAdded(o, m) {
      var i :| 0 <= i < |log| && log[i] == MemberAdded(o, m);
      assert Before(log)[i] == MemberAdded(o, m);
    }
    assert Last(log) == log[|log| - 1];
  }

  /** The Member table grows by the added member and never shrinks. */
  lemma MembersFrame(s: Store, e: Event)
    ensures Step(s, e).members.Keys ==
            if e.MemberAdded? then s.members.Keys + {MemberKey(e.organizationId, e.member)} else s.members.Keys
  {
  }

  /** A Member entity exists exactly for the pairs that were ever added; removal keeps it. */
  lemma {:induction false} MemberStoredIff(log: seq<Event>, o: Bytes8, m: Bytes)
    ensures MemberKey(o, m) in Replay(log).members <==> Added(log, o, m)
  {
    if log != [] {
      var e := Last(log);
      MemberStoredIff(Before(log), o, m);
      AddedStep(log, o, m);
      MembersFrame(Replay(Before(log)), e);
      if e.MemberAdded? {
        MemberKeyInjective(o, m, e.organizationId, e.member);
      }
    }
  }

  // ----- memberCount -----

  ghost function MemberCount(s: Store, o: Bytes8): int
  {
    OrganizationOf(s.organizations, IdString(o)).memberCount
  }

  ghost predicate About(e: Event, o: Bytes8)
  {
    (Announces(e) || e.MemberAdded? || e.MemberRemoved?) && e.organizationId == o
  }

  lemma MemberCountFrame(s: Store, e: Event, o: Bytes8)
    requires !About(e, o)
    ensures MemberCount(Step(s, e), o) == MemberCount(s, o)
  {
    if e.MemberAdded? || e.MemberRemoved? || Announces(e) {
      assert IdString(e.organizationId) != IdString(o);
    } else {
      OtherEventsKeepCount(s, e, IdString(o));
    }
  }

  lemma OtherEventsKeepCount(s: Store, e: Event, id: JsString)
    requires !e.MemberAdded? && !e.MemberRemoved? && !Announces(e)
    ensures OrganizationOf(Step(s, e).organizations, id).memberCount == OrganizationOf(s.organizations, id).memberCount
  {
  }

  /** The count an announcement starts with: 1 from the factory, the chain's with chain data, 0 otherwise. */
  ghost function StartingCount(e: Event): int
    requires Announces(e)
  {
    match e
    case FactoryOrganizationCreated(_, _, _) => 1
    case OrganizationCreated(_, _, _, Some(chain)) => chain.memberCount
    case OrganizationCreated(_, _, _, None) => 0
  }

  /** How far `memberCount` lies above the number of present members: set by the latest announcement, raised
      by adding a present member again, lowered by removing an absent one whose entity is still stored. */
  ghost function Offset(log: seq<Event>, o: Bytes8): int
  {
    if log == [] then 0 else
      var pre, e := Before(log), Last(log);
      if !About(e, o) then Offset(pre, o)
      else if Announces(e) then StartingCount(e) - |Row(Present(pre), o)|
      else if e.MemberAdded? && (o, e.member) in Present(pre) then Offset(pre, o) + 1
      else if e.MemberRemoved? && (o, e.member) !in Present(pre) && Added(pre, o, e.member) then Offset(pre, o) - 1
      else Offset(pre, o)
  }

  lemma RowAfter(log: seq<Event>, o: Bytes8)
    requires log != []
    ensures var pre, e := Before(log), Last(log);
            Row(Present(log), o) ==
              if About(e, o) && e.MemberAdded? then Row(Present(pre), o) + {(o, e.member)}
              else if About(e, o) && e.MemberRemoved? then Row(Present(pre), o) - {(o, e.member)}
              else Row(Present(pre), o)
  {
  }

  lemma {:induction false} PresentWasAdded(log: seq<Event>, o: Bytes8, m: Bytes)
    ensures (o, m) in Present(log) ==> Added(log, o, m)
  {
    if log != [] {
      PresentWasAdded(Before(log), o, m);
      AddedStep(log, o, m);
    }
  }

  /** A member event moves the count and the row together, except for what goes into the offset. */
  lemma MemberCountStep(log: seq<Event>, o: Bytes8)
    requires log != [] && About(Last(log), o) && !Announces(Last(log))
    ensures var pre := Before(log);
            MemberCount(Replay(log), o) - MemberCount(Replay(pre), o) ==
              |Row(Present(log), o)| - |Row(Present(pre), o)| + Offset(log, o) - Offset(pre, o)
  {
    var pre, e := Before(log), Last(log);
    RowAfter(log, o);
    MemberStoredIff(pre, o, e.member);
    PresentWasAdded(pre, o, e.member);
    CountedMember(Replay(pre), e);
    SetSizes(Row(Present(pre), o), (o, e.member));
  }

  /** For every run and organization, announced or not: memberCount = present members + offset. */
  lemma {:induction false} MemberCountLaw(log: seq<Event>, o: Bytes8)
    ensures MemberCount(Replay(log), o) == |Row(Present(log), o)| + Offset(log, o)
  {
    if log == [] {
      assert Row(Present(log), o) == {};
    } else {
      var pre, e := Before(log), Last(log);
      MemberCountLaw(pre, o);
      if !About(e, o) {
        RowAfter(log, o);
        MemberCountFrame(Replay(pre), e, o);
      } else if Announces(e) {
        RowAfter(log, o);
      } else {
        MemberCountStep(log, o);
      }
    }
  }

  lemma CountedMember(s: Store, e: Event)
    requires e.MemberAdded? || e.MemberRemoved?
    ensures MemberCount(Step(s, e), e.organizationId) == MemberCount(s, e.organizationId) +
              if e.MemberAdded? then 1 else if MemberKey(e.organizationId, e.member) in s.members then -1 else 0
  {
  }

  /** Members are added only while absent and removed only while present, as the contract enforces. */
  ghost predicate Disciplined(log: seq<Event>)
  {
    forall n :: 0 <= n < |log| ==>
      && (log[n].MemberAdded? ==> (log[n].organizationId, log[n].member) !in Present(log[..n]))
      && (log[n].MemberRemoved? ==> (log[n].organizationId, log[n].member) in Present(log[..n]))
  }

  /** The organization is announced exactly once, and before any of its member events. */
  ghost predicate AnnouncedFirst(log: seq<Event>, o: Bytes8, k: nat)
  {
    && k < |log| && Announces(log[k]) && About(log[k], o)
    && forall n :: 0 <= n < |log| && n != k && About(log[n], o) ==> k < n && !Announces(log[n])
  }

  ghost predicate Unannounced(log: seq<Event>, o: Bytes8)
  {
    forall n :: 0 <= n < |log| && About(log[n], o) ==> !Announces(log[n])
  }

  lemma {:induction false} OffsetWhenUnannounced(log: seq<Event>, o: Bytes8)
    requires Disciplined(log) && Unannounced(log, o)
    ensures Offset(log, o) == 0
  {
    if log != [] {
      Shorten(log);
      OffsetWhenUnannounced(Before(log), o);
    }
  }

  lemma {:induction false} OffsetWhenAnnouncedFirst(log: seq<Event>, o: Bytes8, k: nat)
    requires Disciplined(log) && AnnouncedFirst(log, o, k)
    ensures Offset(log, o) == StartingCount(log[k])
  {
    Shorten(log);
    if k == |log| - 1 {
      NobodyYet(Before(log), o);
    } else {
      OffsetWhenAnnouncedFirst(Before(log), o, k);
    }
  }

  lemma {:induction false} NobodyYet(log: seq<Event>, o: Bytes8)
    requires forall n :: 0 <= n < |log| ==> !About(log[n], o)
    ensures Row(Present(log), o) == {}
  {
    if log != [] {
      NobodyYet(Before(log), o);
      RowAfter(log, o);
      assert !About(log[|log| - 1], o);
    }
  }

  /** In a disciplined run memberCount is the announced starting count plus the present members,
      whatever state updates say about them. */
  lemma MemberCountWhenAnnouncedFirst(log: seq<Event>, o: Bytes8, k: nat)
    requires Disciplined(log) && AnnouncedFirst(log, o, k)
    ensures MemberCount(Replay(log), o) == StartingCount(log[k]) + |Row(Present(log), o)|
  {
    MemberCountLaw(log, o);
    OffsetWhenAnnouncedFirst(log, o, k);
  }

  /** An organization known only from member events counts exactly its present members. */
  lemma MemberCountWhenUnannounced(log: seq<Event>, o: Bytes8)
    requires Disciplined(log) && Unannounced(log, o)
    ensures MemberCount(Replay(log), o) == |Row(Present(log), o)|
  {
    MemberCountLaw(log, o);
    OffsetWhenUnannounced(log, o);
  }

  // ----- delegation records -----

  /** Event `i` is a delegation that was stored: both parties had been added before it. */
  ghost predicate Delegates(log: seq<Event>, i: nat, o: Bytes8, d: Bytes, e: Bytes, t: nat)
  {
    && i < |log| && log[i].VotingDelegated?
    && (log[i].organizationId, log[i].delegator, log[i].delegatee, log[i].blockTimestamp) == (o, d, e, t)
    && Added(log[..i], o, d) && Added(log[..i], o, e)
  }

  ghost predicate Undelegates(log: seq<Event>, j: nat, o: Bytes8, d: Bytes, e: Bytes, t: nat)
  {
    j < |log| && log[j] == VotingUndelegated(o, d, e, t)
  }

  ghost predicate Recorded(log: seq<Event>, o: Bytes8, d: Bytes, e: Bytes, t: nat)
  {
    exists i: nat :: Delegates(log, i, o, d, e, t)
  }

  /** Some stored delegation has no undelegation after it that carries its block's timestamp. */
  ghost predicate Outstanding(log: seq<Event>, o: Bytes8, d: Bytes, e: Bytes, t: nat)
  {
    exists i: nat :: Delegates(log, i, o, d, e, t) && forall j: nat :: i < j ==> !Undelegates(log, j, o, d, e, t)
  }

  lemma SameEventsBefore(log: seq<Event>, o: Bytes8, d: Bytes, e: Bytes, t: nat)
    requires log != []
    ensures forall i: nat :: i < |log| - 1 ==>
              (Delegates(log, i, o, d, e, t) <==> Delegates(Before(log), i, o, d, e, t))
    ensures forall j: nat :: j < |log| - 1 ==>
              (Undelegates(log, j, o, d, e, t) <==> Undelegates(Before(log), j, o, d, e, t))
  {
    Shorten(log);
  }

  lemma RecordedStep(log: seq<Event>, o: Bytes8, d: Bytes, e: Bytes, t: nat)
    requires log != []
    ensures Recorded(log, o, d, e, t) <==> Recorded(Before(log), o, d, e, t) || Delegates(log, |log| - 1, o, d, e, t)
  {
    SameEventsBefore(log, o, d, e, t);
    if Recorded(Before(log), o, d, e, t) {
      var i: nat :| Delegates(Before(log), i, o, d, e, t);
      assert Delegates(log, i, o, d, e, t);
    }
  }

  lemma OutstandingStep(log: seq<Event>, o: Bytes8, d: Bytes, e: Bytes, t: nat)
    requires log != []
    ensures var n := |log| - 1;
            Outstanding(log, o, d, e, t) <==>
              || (Outstanding(Before(log), o, d, e, t) && !Undelegates(log, n, o, d, e, t))
              || Delegates(log, n, o, d, e, t)
  {
    var pre, n := Before(log), |log| - 1;
    SameEventsBefore(log, o, d, e, t);
    if Outstanding(log, o, d, e, t) && !Delegates(log, n, o, d, e, t) {
      var i: nat :| Delegates(log, i, o, d, e, t) && forall j: nat :: i < j ==> !Undelegates(log, j, o, d, e, t);
      assert Delegates(pre, i, o, d, e, t);
    }
    if Outstanding(pre, o, d, e, t) && !Undelegates(log, n, o, d, e, t) {
      var i: nat :| Delegates(pre, i, o, d, e, t) && forall j: nat :: i < j ==> !Undelegates(pre, j, o, d, e, t);
      assert Delegates(log, i, o, d, e, t);
    }
  }

  lemma DelegationFrame(s: Store, e: Event)
    requires !e.VotingDelegated? && !e.VotingUndelegated?
    ensures Step(s, e).delegations == s.delegations
  {
  }

  lemma DelegationSaved(s: Store, e: Event)
    requires e.VotingDelegated?
    ensures Step(s, e).delegations ==
            if MemberKey(e.organizationId, e.delegator) in s.members
               && MemberKey(e.organizationId, e.delegatee) in s.members
            then s.delegations[DelegationKey(e.organizationId, e.delegator, e.delegatee, e.blockTimestamp) := Given(e)]
            else s.delegations
  {
  }

  ghost predicate RecordActive(s: Store, key: JsString)
  {
    key in s.delegations && s.delegations[key].active
  }

  /** What the last event of a run does to the record of one block's delegation. */
  lemma DelegationStep(log: seq<Event>, o: Bytes8, d: Bytes, e: Bytes, t: nat)
    requires log != []
    ensures var s, next, key, n := Replay(Before(log)), Replay(log), DelegationKey(o, d, e, t), |log| - 1;
            && (key in next.delegations <==> key in s.delegations || Delegates(log, n, o, d, e, t))
            && (RecordActive(next, key) <==>
                  (RecordActive(s, key) && !Undelegates(log, n, o, d, e, t)) || Delegates(log, n, o, d, e, t))
  {
    var pre, ev := Before(log), Last(log);
    Shorten(log);
    if ev.VotingDelegated? {
      DelegationSaved(Replay(pre), ev);
      DelegationKeyInjective(o, d, e, t, ev.organizationId, ev.delegator, ev.delegatee, ev.blockTimestamp);
      MemberStoredIff(pre, ev.organizationId, ev.delegator);
      MemberStoredIff(pre, ev.organizationId, ev.delegatee);
    } else if ev.VotingUndelegated? {
      DelegationKeyInjective(o, d, e, t, ev.organizationId, ev.delegator, ev.delegatee, ev.timestamp);
    } else {
      DelegationFrame(Replay(pre), ev);
    }
  }

  /** For every run: a delegation record exists exactly if its delegation was stored, and it is active exactly if
      a stored delegation to that block has not been followed by an undelegation carrying that very timestamp. */
  lemma {:induction false} DelegationLaw(log: seq<Event>, o: Bytes8, d: Bytes, e: Bytes, t: nat)
    ensures DelegationKey(o, d, e, t) in Replay(log).delegations <==> Recorded(log, o, d, e, t)
    ensures RecordActive(Replay(log), DelegationKey(o, d, e, t)) <==> Outstanding(log, o, d, e, t)
  {
    if log != [] {
      DelegationLaw(Before(log), o, d, e, t);
      RecordedStep(log, o, d, e, t);
      OutstandingStep(log, o, d, e, t);
      DelegationStep(log, o, d, e, t);
    }
  }

  /** An undelegation that carries any other timestamp leaves an active record active. */
  lemma LaterUndelegationMisses(log: seq<Event>, o: Bytes8, d: Bytes, e: Bytes, t: nat, later: nat)
    requires later != t && Outstanding(log, o, d, e, t)
    ensures RecordActive(Replay(log + [VotingUndelegated(o, d, e, later)]), DelegationKey(o, d, e, t))
  {
    var next := log + [VotingUndelegated(o, d, e, later)];
    assert Before(next) == log;
    OutstandingStep(next, o, d, e, t);
    DelegationLaw(next, o, d, e, t);
  }
}
