/**
 * The membership counts of src/membership.ts: kept in three places, and compared with each other and
 * with the membership relation the events describe. Also the profile counters of src/identity.ts.
 */
module LegacyMembershipLaws {
  import opened Text
  import opened Tally
  import opened Runs
  import opened LegacyStore

  // ----- three counts, one change: every run -----

  ghost function Counts(organizations: Organizations): map<JsString, int>
  {
    map id | id in organizations :: organizations[id].memberCount
  }

  ghost function Memberships(users: map<JsString, User>): map<JsString, int>
  {
    map id | id in users :: users[id].totalMemberships
  }

  /** No organization comes or goes, and every stored member points at records that exist. */
  ghost predicate Anchored(start: Organizations, s: Store)
  {
    && s.organizations.Keys == start.Keys
    && (forall k :: k in s.members ==> s.members[k].organization in s.organizations && s.members[k].user in s.users)
    && (s.members != map[] ==> s.stats.Some?)
    && (s.profiles != map[] ==> s.stats.Some?)
  }

  ghost predicate Conserved(start: Organizations, s: Store)
  {
    && Total(Counts(s.organizations)) - Total(Counts(start)) == StatsOf(s.stats).totalMembers
    && Total(Memberships(s.users)) == StatsOf(s.stats).totalMembers
  }

  lemma CountAfterSave(organizations: Organizations, id: JsString, o: Organization)
    requires id in organizations
    ensures Total(Counts(organizations[id := o])) ==
            Total(Counts(organizations)) + o.memberCount - organizations[id].memberCount
  {
    assert Counts(organizations[id := o]) == Counts(organizations)[id := o.memberCount];
    TotalUpdate(Counts(organizations), id, o.memberCount);
  }

  lemma MembershipAfterSave(users: map<JsString, User>, id: JsString, u: User)
    ensures Total(Memberships(users[id := u])) ==
            Total(Memberships(users)) + u.totalMemberships - UserOf(users, id).totalMemberships
  {
    assert Memberships(users[id := u]) == Memberships(users)[id := u.totalMemberships];
    TotalUpdate(Memberships(users), id, u.totalMemberships);
  }

  lemma ConservedAdded(start: Organizations, s: Store, id: JsString, user: JsString, key: JsString, state: int)
    requires Anchored(start, s) && Conserved(start, s)
    ensures var t := AfterAdded(s, id, user, key, state); Anchored(start, t) && Conserved(start, t)
  {
    if id in s.organizations {
      var t := AfterAdded(s, id, user, key, state);
      CountAfterSave(s.organizations, id, t.organizations[id]);
      MembershipAfterSave(s.users, user, t.users[user]);
    }
  }

  lemma ConservedRemoved(start: Organizations, s: Store, key: JsString)
    requires Anchored(start, s) && Conserved(start, s)
    ensures var t := AfterRemoved(s, key); Anchored(start, t) && Conserved(start, t)
  {
    if key in s.members {
      var m, t := s.members[key], AfterRemoved(s, key);
      CountAfterSave(s.organizations, m.organization, t.organizations[m.organization]);
      MembershipAfterSave(s.users, m.user, t.users[m.user]);
    }
  }

  lemma ConservedProfile(start: Organizations, s: Store, id: JsString, owner: JsString)
    requires Anchored(start, s) && Conserved(start, s)
    ensures var t := AfterProfile(s, id, owner); Anchored(start, t) && Conserved(start, t)
  {
    MembershipAfterSave(s.users, owner, UserOf(s.users, owner));
  }

  lemma ConservedStep(start: Organizations, s: Store, e: Event)
    requires Anchored(start, s) && Conserved(start, s)
    ensures Anchored(start, Step(s, e)) && Conserved(start, Step(s, e))
  {
    match e
    case MemberAdded(o, m, state) => ConservedAdded(start, s, ToHex(o), ToHex(m), MemberKey(o, m), state);
    case MemberRemoved(o, m) => ConservedRemoved(start, s, MemberKey(o, m));
    case ProfileCreated(p, owner) => ConservedProfile(start, s, ToHex(p), ToHex(owner));
    case MemberStateUpdated(_, _, _) =>
    case VotingPowerUpdated(_, _, _, _) =>
    case VotingDelegated(_, _, _, _, _) =>
    case VotingUndelegated(_, _, _, _, _) =>
    case ProfileVerified(_) =>
  }

  /** For every run: the organizations' counts have grown, together, by the sum of the users' memberships,
      which is totalMembers; and every stored member's organization, user and global record exist. */
  lemma {:induction false} MembershipConservation(start: Organizations, log: seq<Event>)
    ensures Anchored(start, Replay(start, log)) && Conserved(start, Replay(start, log))
  {
    if log == [] {
      assert Memberships(Initial(start).users) == map[];
    } else {
      MembershipConservation(start, Before(log));
      ConservedStep(start, Replay(start, Before(log)), Last(log));
    }
  }

  // ----- the membership relation -----

  type Pair = (Bytes, Bytes)

  ghost predicate Accepts(start: Organizations, e: Event)
  {
    e.MemberAdded? && ToHex(e.organizationId) in start
  }

  /** Who belongs to what according to the member events for stored organizations. */
  ghost function Present(start: Organizations, log: seq<Event>): set<Pair>
  {
    if log == [] then {}
    else if Accepts(start, Last(log)) then
      Present(start, Before(log)) + {(Last(log).organizationId, Last(log).memberAddress)}
    else if Last(log).MemberRemoved? then
      Present(start, Before(log)) - {(Last(log).organizationId, Last(log).memberAddress)}
    else Present(start, Before(log))
  }

  /** The pair was added at some time, whether or not it was removed again. */
  ghost function Known(start: Organizations, log: seq<Event>): set<Pair>
  {
    if log == [] then {}
    else if Accepts(start, Last(log)) then
      Known(start, Before(log)) + {(Last(log).organizationId, Last(log).memberAddress)}
    else Known(start, Before(log))
  }

  lemma {:induction false} PresentIsKnown(start: Organizations, log: seq<Event>)
    ensures Present(start, log) <= Known(start, log)
  {
    if log != [] {
      PresentIsKnown(start, Before(log));
    }
  }

  lemma MembersAfter(s: Store, e: Event, key: JsString)
    ensures var t := Step(s, e);
            if e.MemberAdded? && ToHex(e.organizationId) in s.organizations
               && MemberKey(e.organizationId, e.memberAddress) == key then
              key in t.members && t.members[key] == Member(ToHex(e.organizationId), ToHex(e.memberAddress), e.state)
            else
              (key in t.members <==> key in s.members) &&
              (key in s.members ==>
                 t.members[key] == if e.MemberStateUpdated? && MemberKey(e.organizationId, e.memberAddress) == key
                                   then s.members[key].(state := e.newState) else s.members[key])
  {
  }

  /** A Member entity exists exactly for the known pairs, and names its organization and user. */
  lemma {:induction false} MemberStoredIff(start: Organizations, log: seq<Event>, o: Bytes, m: Bytes)
    ensures var s, key := Replay(start, log), MemberKey(o, m);
            && (key in s.members <==> (o, m) in Known(start, log))
            && (key in s.members ==> s.members[key].organization == ToHex(o) && s.members[key].user == ToHex(m))
  {
    if log != [] {
      var s, e := Replay(start, Before(log)), Last(log);
      MemberStoredIff(start, Before(log), o, m);
      MembershipConservation(start, Before(log));
      MembersAfter(s, e, MemberKey(o, m));
      if e.MemberAdded? {
        MemberKeyInjective(o, m, e.organizationId, e.memberAddress);
      }
    }
  }

  /** Members are added only while absent, and once known, removed only while present. */
  ghost predicate EventDisciplined(start: Organizations, before: seq<Event>, e: Event)
  {
    && (Accepts(start, e) ==> (e.organizationId, e.memberAddress) !in Present(start, before))
    && (e.MemberRemoved? && (e.organizationId, e.memberAddress) in Known(start, before) ==>
          (e.organizationId, e.memberAddress) in Present(start, before))
  }

  ghost predicate Disciplined(start: Organizations, log: seq<Event>)
  {
    forall n :: 0 <= n < |log| ==> EventDisciplined(start, log[..n], log[n])
  }

  ghost function Row(present: set<Pair>, o: Bytes): set<Pair>
  {
    set p | p in present && p.0 == o
  }

  ghost function Column(present: set<Pair>, m: Bytes): set<Pair>
  {
    set p | p in present && p.1 == m
  }

  /** Organization counts are row sizes above the starting counts, user counts are column sizes, and the
      global count is the size of the relation. */
  ghost predicate Matches(start: Organizations, s: Store, present: set<Pair>)
  {
    && s.organizations.Keys == start.Keys
    && (forall o: Bytes :: ToHex(o) in start ==>
          s.organizations[ToHex(o)].memberCount == start[ToHex(o)].memberCount + |Row(present, o)|)
    && (forall m: Bytes :: UserOf(s.users, ToHex(m)).totalMemberships == |Column(present, m)|)
    && StatsOf(s.stats).totalMembers == |present|
  }

  lemma RowOf(present: set<Pair>, p: Pair, o: Bytes)
    ensures Row(present + {p}, o) == if p.0 == o then Row(present, o) + {p} else Row(present, o)
    ensures Row(present - {p}, o) == if p.0 == o then Row(present, o) - {p} else Row(present, o)
  {
  }

  lemma ColumnOf(present: set<Pair>, p: Pair, m: Bytes)
    ensures Column(present + {p}, m) == if p.1 == m then Column(present, m) + {p} else Column(present, m)
    ensures Column(present - {p}, m) == if p.1 == m then Column(present, m) - {p} else Column(present, m)
  {
  }

  lemma RowSizes(present: set<Pair>, o: Bytes, m: Bytes, o': Bytes)
    ensures ToHex(o') == ToHex(o) <==> o' == o
    ensures |Row(present + {(o, m)}, o')| == |Row(present, o')| + One(o' == o && (o, m) !in present)
    ensures |Row(present - {(o, m)}, o')| == |Row(present, o')| - One(o' == o && (o, m) in present)
  {
    RowOf(present, (o, m), o');
    SetSizes(Row(present, o'), (o, m));
    if ToHex(o') == ToHex(o) {
      ToHexInjective(o', o);
    }
  }

  lemma ColumnSizes(present: set<Pair>, o: Bytes, m: Bytes, m': Bytes)
    ensures ToHex(m') == ToHex(m) <==> m' == m
    ensures |Column(present + {(o, m)}, m')| == |Column(present, m')| + One(m' == m && (o, m) !in present)
    ensures |Column(present - {(o, m)}, m')| == |Column(present, m')| - One(m' == m && (o, m) in present)
  {
    ColumnOf(present, (o, m), m');
    SetSizes(Column(present, m'), (o, m));
    if ToHex(m') == ToHex(m) {
      ToHexInjective(m', m);
    }
  }

  lemma MatchesAdded(start: Organizations, s: Store, present: set<Pair>, o: Bytes, m: Bytes, state: int)
    requires Matches(start, s, present) && ToHex(o) in start && (o, m) !in present
    ensures Matches(start, AfterAdded(s, ToHex(o), ToHex(m), MemberKey(o, m), state), present + {(o, m)})
  {
    forall o': Bytes
      ensures ToHex(o') == ToHex(o) <==> o' == o
      ensures |Row(present + {(o, m)}, o')| == |Row(present, o')| + One(o' == o)
    {
      RowSizes(present, o, m, o');
    }
    forall m': Bytes
      ensures ToHex(m') == ToHex(m) <==> m' == m
      ensures |Column(present + {(o, m)}, m')| == |Column(present, m')| + One(m' == m)
    {
      ColumnSizes(present, o, m, m');
    }
  }

  lemma MatchesRemoved(start: Organizations, s: Store, present: set<Pair>, o: Bytes, m: Bytes)
    requires Matches(start, s, present) && Anchored(start, s) && (o, m) in present
    requires MemberKey(o, m) in s.members
    requires s.members[MemberKey(o, m)].organization == ToHex(o) && s.members[MemberKey(o, m)].user == ToHex(m)
    ensures Matches(start, AfterRemoved(s, MemberKey(o, m)), present - {(o, m)})
  {
    forall o': Bytes
      ensures ToHex(o') == ToHex(o) <==> o' == o
      ensures |Row(present - {(o, m)}, o')| == |Row(present, o')| - One(o' == o)
    {
      RowSizes(present, o, m, o');
    }
    forall m': Bytes
      ensures ToHex(m') == ToHex(m) <==> m' == m
      ensures |Column(present - {(o, m)}, m')| == |Column(present, m')| - One(m' == m)
    {
      ColumnSizes(present, o, m, m');
    }
  }

  /** The member counters are untouched by the remaining events. */
  lemma MemberCountFrame(s: Store, e: Event)
    requires !e.MemberAdded? && !e.MemberRemoved?
    ensures Step(s, e).organizations == s.organizations
    ensures forall id :: UserOf(Step(s, e).users, id) == UserOf(s.users, id)
    ensures StatsOf(Step(s, e).stats).totalMembers == StatsOf(s.stats).totalMembers
  {
  }

  /** In a disciplined run all counts are sizes of one membership relation, hence never negative growth. */
  lemma {:induction false} RelationLaw(start: Organizations, log: seq<Event>)
    requires Disciplined(start, log)
    ensures Matches(start, Replay(start, log), Present(start, log))
  {
    if log == [] {
      assert forall o: Bytes :: Row({}, o) == {};
      assert forall m: Bytes :: Column({}, m) == {};
    } else {
      var pre, e := Before(log), Last(log);
      var s, present := Replay(start, pre), Present(start, pre);
      Shorten(log);
      RelationLaw(start, pre);
      MembershipConservation(start, pre);
      assert EventDisciplined(start, log[..|log| - 1], log[|log| - 1]);
      if e.MemberRemoved? {
        MemberStoredIff(start, pre, e.organizationId, e.memberAddress);
        PresentIsKnown(start, pre);
        if (e.organizationId, e.memberAddress) in present {
          MatchesRemoved(start, s, present, e.organizationId, e.memberAddress);
        } else {
          assert Present(start, log) == present;
        }
      } else if Accepts(start, e) {
        MatchesAdded(start, s, present, e.organizationId, e.memberAddress, e.state);
      } else if !e.MemberAdded? {
        MemberCountFrame(s, e);
      }
    }
  }

  ghost predicate TotalMatches(start: Organizations, log: seq<Event>)
  {
    StatsOf(Replay(start, log).stats).totalMembers == |Present(start, log)|
  }

  lemma TotalMatchesStep(start: Organizations, log: seq<Event>)
    requires log != [] && TotalMatches(start, Before(log))
    ensures TotalMatches(start, log) <==> EventDisciplined(start, Before(log), Last(log))
  {
    var pre, e := Before(log), Last(log);
    MembershipConservation(start, pre);
    if e.MemberAdded? || e.MemberRemoved? {
      SetSizes(Present(start, pre), (e.organizationId, e.memberAddress));
      MemberStoredIff(start, pre, e.organizationId, e.memberAddress);
      PresentIsKnown(start, pre);
    } else {
      MemberCountFrame(Replay(start, pre), e);
    }
  }

  ghost predicate AlwaysMatches(start: Organizations, log: seq<Event>)
  {
    forall n :: 0 <= n <= |log| ==> TotalMatches(start, log[..n])
  }

  /** totalMembers is the size of the relation after every event if and only if the run is disciplined. */
  lemma DisciplinedIff(start: Organizations, log: seq<Event>)
    ensures AlwaysMatches(start, log) <==> Disciplined(start, log)
  {
    var ok, keeps := h => TotalMatches(start, h), (h, e) => EventDisciplined(start, h, e);
    forall h | h != [] && ok(Before(h))
      ensures ok(h) <==> keeps(Before(h), Last(h))
    {
      TotalMatchesStep(start, h);
    }
    HoldsIff(log, ok, keeps);
    assert forall n :: 0 <= n <= |log| ==> ok(log[..n]) == TotalMatches(start, log[..n]);
    assert forall n :: 0 <= n < |log| ==> keeps(log[..n], log[n]) == EventDisciplined(start, log[..n], log[n]);
  }

  // ----- active memberships -----

  /** The present members whose stored state is ACTIVE. */
  ghost function ActivePairs(s: Store, present: set<Pair>): set<Pair>
  {
    set p | p in present && MemberKey(p.0, p.1) in s.members && s.members[MemberKey(p.0, p.1)].state == 1
  }

  /** A state update of a known member finds it present. */
  ghost predicate UpdatesPresent(start: Organizations, log: seq<Event>)
  {
    forall n :: 0 <= n < |log| && log[n].MemberStateUpdated? ==>
      var p := (log[n].organizationId, log[n].memberAddress);
      p in Known(start, log[..n]) ==> p in Present(start, log[..n])
  }

  ghost predicate ActiveMatches(start: Organizations, log: seq<Event>)
  {
    StatsOf(Replay(start, log).stats).totalActiveMemberships ==
      |ActivePairs(Replay(start, log), Present(start, log))|
  }

  lemma ActiveElsewhere(s: Store, e: Event, o: Bytes, m: Bytes, present: set<Pair>)
    requires e.MemberAdded? || e.MemberRemoved? || e.MemberStateUpdated?
    requires (o, m) == (e.organizationId, e.memberAddress)
    ensures ActivePairs(Step(s, e), present - {(o, m)}) == ActivePairs(s, present) - {(o, m)}
  {
    forall p | p in present && p != (o, m)
      ensures var key := MemberKey(p.0, p.1);
              (key in Step(s, e).members <==> key in s.members) &&
              (key in s.members ==> Step(s, e).members[key] == s.members[key])
    {
      MemberKeyInjective(p.0, p.1, o, m);
      MembersAfter(s, e, MemberKey(p.0, p.1));
    }
  }

  lemma ActiveFrame(s: Store, e: Event, present: set<Pair>)
    requires !e.MemberAdded? && !e.MemberRemoved? && !e.MemberStateUpdated?
    ensures ActivePairs(Step(s, e), present) == ActivePairs(s, present)
    ensures StatsOf(Step(s, e).stats).totalActiveMemberships == StatsOf(s.stats).totalActiveMemberships
  {
    assert Step(s, e).members == s.members;
  }

  lemma SameElsewhere(was: set<Pair>, now: set<Pair>, p: Pair)
    requires now - {p} == was - {p}
    ensures |now| == |was| - One(p in was) + One(p in now)
  {
    SetSizes(was, p);
    SetSizes(now, p);
  }

  /** The ACTIVE present members after a member event, split into the pair concerned and the rest. */
  lemma ActiveAtPair(start: Organizations, log: seq<Event>)
    requires log != []
    requires Last(log).MemberAdded? || Last(log).MemberRemoved? || Last(log).MemberStateUpdated?
    ensures var s, t := Replay(start, Before(log)), Replay(start, log);
            var p := (Last(log).organizationId, Last(log).memberAddress);
            |ActivePairs(t, Present(start, log))| ==
              |ActivePairs(s, Present(start, Before(log)))|
              - One(p in ActivePairs(s, Present(start, Before(log)))) + One(p in ActivePairs(t, Present(start, log)))
  {
    var pre, e := Before(log), Last(log);
    var s, t, p := Replay(start, pre), Replay(start, log), (e.organizationId, e.memberAddress);
    ActiveElsewhere(s, e, e.organizationId, e.memberAddress, Present(start, pre));
    assert t == Step(s, e);
    assert Present(start, log) - {p} == Present(start, pre) - {p};
    ActiveWithout(t, Present(start, log), p);
    SameElsewhere(ActivePairs(s, Present(start, pre)), ActivePairs(t, Present(start, log)), p);
  }

  lemma ActiveWithout(s: Store, present: set<Pair>, p: Pair)
    ensures ActivePairs(s, present - {p}) == ActivePairs(s, present) - {p}
  {
  }

  predicate AboutMember(e: Event)
  {
    e.MemberAdded? || e.MemberRemoved? || e.MemberStateUpdated?
  }

  ghost predicate StoredActive(s: Store, p: Pair)
  {
    MemberKey(p.0, p.1) in s.members && s.members[MemberKey(p.0, p.1)].state == 1
  }

  /** Adding a present ACTIVE member again counts it twice; removing an absent one stored as ACTIVE uncounts it twice;
      a state update of an absent stored member is counted although it is not a member. */
  ghost function ActiveSlip(start: Organizations, before: seq<Event>, e: Event): int
  {
    if !AboutMember(e) then 0 else
      var s, p := Replay(start, before), (e.organizationId, e.memberAddress);
      var present := p in Present(start, before);
      if Accepts(start, e) then One(present && StoredActive(s, p))
      else if e.MemberRemoved? && !present then -One(StoredActive(s, p))
      else if e.MemberStateUpdated? && !present && p in Known(start, before) then
        One(e.newState == 1) - One(StoredActive(s, p))
      else 0
  }

  ghost function ActiveSlips(start: Organizations, log: seq<Event>): int
  {
    if log == [] then 0 else ActiveSlips(start, Before(log)) + ActiveSlip(start, Before(log), Last(log))
  }

  ghost function ActiveGap(start: Organizations, log: seq<Event>): int
  {
    StatsOf(Replay(start, log).stats).totalActiveMemberships - |ActivePairs(Replay(start, log), Present(start, log))|
  }

  /** What a member event does to the counter. */
  lemma ActiveCountAfter(start: Organizations, s: Store, e: Event)
    requires Anchored(start, s) && AboutMember(e)
    ensures var p := (e.organizationId, e.memberAddress);
            StatsOf(Step(s, e).stats).totalActiveMemberships == StatsOf(s.stats).totalActiveMemberships +
              if Accepts(start, e) then One(e.state == 1)
              else if MemberKey(p.0, p.1) !in s.members then 0
              else if e.MemberRemoved? then -One(StoredActive(s, p))
              else if e.MemberStateUpdated? then One(e.newState == 1) - One(StoredActive(s, p))
              else 0
  {
  }

  lemma ActiveGapStep(start: Organizations, log: seq<Event>)
    requires log != []
    ensures ActiveGap(start, log) == ActiveGap(start, Before(log)) + ActiveSlip(start, Before(log), Last(log))
  {
    var pre, e := Before(log), Last(log);
    var s := Replay(start, pre);
    MembershipConservation(start, pre);
    if AboutMember(e) {
      ActiveAtPair(start, log);
      ActiveCountAfter(start, s, e);
      MemberStoredIff(start, pre, e.organizationId, e.memberAddress);
      PresentIsKnown(start, pre);
      MembersAfter(s, e, MemberKey(e.organizationId, e.memberAddress));
    } else {
      ActiveFrame(s, e, Present(start, pre));
    }
  }

  /** For every run: totalActiveMemberships = present members in state ACTIVE + what single events let slip. */
  lemma {:induction false} ActiveMembershipsLaw(start: Organizations, log: seq<Event>)
    ensures StatsOf(Replay(start, log).stats).totalActiveMemberships ==
            |ActivePairs(Replay(start, log), Present(start, log))| + ActiveSlips(start, log)
  {
    if log == [] {
      assert ActivePairs(Initial(start), {}) == {};
    } else {
      ActiveMembershipsLaw(start, Before(log));
      ActiveGapStep(start, log);
    }
  }

  /** No present ACTIVE member is added again, no absent member stored as ACTIVE is removed, and a state update of an
      absent stored member moves it neither into nor out of ACTIVE. */
  ghost predicate CountsActive(start: Organizations, before: seq<Event>, e: Event)
  {
    AboutMember(e) ==>
      var s, p := Replay(start, before), (e.organizationId, e.memberAddress);
      var present := p in Present(start, before);
      && (Accepts(start, e) && present ==> !StoredActive(s, p))
      && (e.MemberRemoved? && !present ==> !StoredActive(s, p))
      && (e.MemberStateUpdated? && !present && p in Known(start, before) ==>
            (e.newState == 1 <==> StoredActive(s, p)))
  }

  /** The count is right after every event if and only if every event counts active members right. */
  lemma ActiveMatchesIff(start: Organizations, log: seq<Event>)
    ensures (forall n :: 0 <= n <= |log| ==> ActiveMatches(start, log[..n]))
            <==> (forall n :: 0 <= n < |log| ==> CountsActive(start, log[..n], log[n]))
  {
    var ok, keeps := h => ActiveMatches(start, h), (h, e) => CountsActive(start, h, e);
    ActiveMembershipsLaw(start, []);
    forall h | h != [] && ok(Before(h))
      ensures ok(h) <==> keeps(Before(h), Last(h))
    {
      ActiveGapStep(start, h);
    }
    HoldsIff(log, ok, keeps);
    assert forall n :: 0 <= n <= |log| ==> ok(log[..n]) == ActiveMatches(start, log[..n]);
    assert forall n :: 0 <= n < |log| ==> keeps(log[..n], log[n]) == CountsActive(start, log[..n], log[n]);
  }

  /** In a disciplined run whose state updates concern present members, totalActiveMemberships is exactly the number of
      present ACTIVE members and never exceeds totalMembers, although removed Member records stay stored. */
  lemma ActiveLaw(start: Organizations, log: seq<Event>)
    requires Disciplined(start, log) && UpdatesPresent(start, log)
    ensures ActiveMatches(start, log)
    ensures StatsOf(Replay(start, log).stats).totalActiveMemberships <= StatsOf(Replay(start, log).stats).totalMembers
  {
    forall n | 0 <= n < |log|
      ensures CountsActive(start, log[..n], log[n])
    {
      if AboutMember(log[n]) {
        assert EventDisciplined(start, log[..n], log[n]);
        MemberStoredIff(start, log[..n], log[n].organizationId, log[n].memberAddress);
      }
    }
    ActiveMatchesIff(start, log);
    assert log[..|log|] == log;
    RelationLaw(start, log);
    Subset(ActivePairs(Replay(start, log), Present(start, log)), Present(start, log));
  }

  // ----- profiles -----

  ghost function VerifiedIds(profiles: map<JsString, Profile>): set<JsString>
  {
    set id | id in profiles && profiles[id].verified
  }

  ghost predicate ProfilesHaveStats(s: Store)
  {
    s.profiles != map[] || s.members != map[] ==> s.stats.Some?
  }

  ghost function VerifiedGap(s: Store): int
  {
    StatsOf(s.stats).verifiedProfiles - |VerifiedIds(s.profiles)|
  }

  /** Verifying a verified profile again, or creating it again, leaves its earlier verification counted. */
  ghost function VerifiedSlip(s: Store, e: Event): int
  {
    if (e.ProfileVerified? || e.ProfileCreated?) && ToHex(e.profileId) in VerifiedIds(s.profiles) then 1 else 0
  }

  lemma VerifiedStep(s: Store, e: Event)
    requires ProfilesHaveStats(s)
    ensures ProfilesHaveStats(Step(s, e))
    ensures VerifiedGap(Step(s, e)) == VerifiedGap(s) + VerifiedSlip(s, e)
  {
    var was := VerifiedIds(s.profiles);
    if e.ProfileCreated? {
      assert VerifiedIds(Step(s, e).profiles) == was - {ToHex(e.profileId)};
    } else if e.ProfileVerified? && ToHex(e.profileId) in s.profiles {
      assert VerifiedIds(Step(s, e).profiles) == was + {ToHex(e.profileId)};
      if ToHex(e.profileId) in was {
        assert VerifiedIds(Step(s, e).profiles) == was;
      }
    } else {
      assert Step(s, e).profiles == s.profiles;
    }
  }

  ghost predicate NotVerifiedYet(s: Store, e: Event)
  {
    (e.ProfileVerified? || e.ProfileCreated?) ==> ToHex(e.profileId) !in VerifiedIds(s.profiles)
  }

  /** For every run: verifiedProfiles is at least the number of verified profiles, and exactly that number if and only
      if no profile was verified, or created again, while already verified. */
  lemma VerifiedProfilesLaw(start: Organizations, log: seq<Event>)
    ensures StatsOf(Replay(start, log).stats).verifiedProfiles >= |VerifiedIds(Replay(start, log).profiles)|
    ensures StatsOf(Replay(start, log).stats).verifiedProfiles == |VerifiedIds(Replay(start, log).profiles)|
            <==> forall n :: 0 <= n < |log| ==> NotVerifiedYet(Replay(start, log[..n]), log[n])
  {
    assert VerifiedIds(Initial(start).profiles) == {};
    forall s, e | ProfilesHaveStats(s)
      ensures ProfilesHaveStats(Step(s, e)) && VerifiedGap(Step(s, e)) == VerifiedGap(s) + VerifiedSlip(s, e)
    {
      VerifiedStep(s, e);
    }
    DriftLaw(Step, Initial(start), log, ProfilesHaveStats, VerifiedGap, VerifiedSlip);
    DriftNonNegative(Step, Initial(start), log, VerifiedSlip);
    assert forall n :: 0 <= n < |log| ==>
      (VerifiedSlip(Replay(start, log[..n]), log[n]) == 0 <==> NotVerifiedYet(Replay(start, log[..n]), log[n]));
  }
}
