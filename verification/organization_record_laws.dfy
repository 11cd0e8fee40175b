/** The stored state of an organization, told from the log alone. */
module OrganizationRecordLaws {
  import opened Text
  import opened Runs
  import opened SubgraphStore
  import opened OrganizationLaws

  /** The events that store an organization, as announced or as a stub. */
  ghost predicate Stores(e: Event, o: Bytes8)
  {
    (Announces(e) || e.MemberAdded? || e.MemberRemoved? || e.VotingDelegated?) && e.organizationId == o
  }

  ghost predicate EverStored(log: seq<Event>, o: Bytes8)
  {
    exists i :: 0 <= i < |log| && Stores(log[i], o)
  }

  /** The events that decide the state of a stored organization. */
  ghost predicate Decides(e: Event, o: Bytes8)
  {
    (Announces(e) || e.OrganizationStateChanged?) && e.organizationId == o
  }

  /** The state with a code: 0 INACTIVE, 2 LOCKED, 3 DISSOLVED, any other ACTIVE. */
  ghost predicate CodeSays(n: int, state: OrgState)
  {
    && (state == OrgState.INACTIVE <==> n == 0) && (state == OrgState.LOCKED <==> n == 2)
    && (state == OrgState.DISSOLVED <==> n == 3)
  }

  /** The factory announces ACTIVE organizations, control the chain's state or, without chain data, ACTIVE. */
  ghost predicate Says(e: Event, state: OrgState)
    requires Announces(e) || e.OrganizationStateChanged?
  {
    match e
    case FactoryOrganizationCreated(_, _, _) => state == OrgState.ACTIVE
    case OrganizationCreated(_, _, _, None) => state == OrgState.ACTIVE
    case OrganizationCreated(_, _, _, Some(chain)) => CodeSays(chain.state, state)
    case OrganizationStateChanged(_, n) => CodeSays(n, state)
  }

  /** Organizations are stored by the events about them and never removed. */
  lemma OrganizationKeys(s: Store, e: Event)
    ensures Step(s, e).organizations.Keys ==
            s.organizations.Keys +
            if Announces(e) || e.MemberAdded? || e.MemberRemoved? || e.VotingDelegated?
            then {IdString(e.organizationId)} else {}
  {
    if e.CampaignCreated? {
      CampaignKeepsKeys(s.organizations, IdString(e.organizationId));
    } else if e.OrganizationStateChanged? {
      StateKeepsKeys(s, IdString(e.organizationId), MapOrgState(e.newState));
    }
  }

  lemma CampaignKeepsKeys(organizations: map<JsString, Organization>, id: JsString)
    ensures OneMoreCampaign(organizations, id).Keys == organizations.Keys
  {
  }

  lemma StateKeepsKeys(s: Store, id: JsString, now: OrgState)
    ensures AfterOrganizationState(s, id, now).organizations.Keys == s.organizations.Keys
  {
  }

  lemma StoredAfter(s: Store, e: Event, o: Bytes8)
    ensures IdString(o) in Step(s, e).organizations <==> IdString(o) in s.organizations || Stores(e, o)
  {
    OrganizationKeys(s, e);
  }

  lemma StateSaved(s: Store, e: Event)
    requires Announces(e) || (e.OrganizationStateChanged? && IdString(e.organizationId) in s.organizations)
    ensures IdString(e.organizationId) in Step(s, e).organizations
    ensures Says(e, Step(s, e).organizations[IdString(e.organizationId)].state)
  {
  }

  lemma StateAfter(s: Store, e: Event, o: Bytes8)
    requires IdString(o) in Step(s, e).organizations
    ensures var state := Step(s, e).organizations[IdString(o)].state;
            && (Decides(e, o) ==> Says(e, state))
            && (!Decides(e, o) ==> state == OrganizationOf(s.organizations, IdString(o)).state)
  {
    StoredAfter(s, e, o);
    OrganizationFrame(s, e);
    if Decides(e, o) {
      StateSaved(s, e);
    }
  }

  lemma EverStoredStep(log: seq<Event>, o: Bytes8)
    requires log != []
    ensures EverStored(log, o) <==> EverStored(Before(log), o) || Stores(Last(log), o)
  {
    Shorten(log);
    assert log[|log| - 1] == Last(log);
  }

  /** For every run: an organization is stored exactly if it was announced or met in a member or delegation event. */
  lemma {:induction false} OrganizationStoredIff(log: seq<Event>, o: Bytes8)
    ensures IdString(o) in Replay(log).organizations <==> EverStored(log, o)
  {
    if log != [] {
      OrganizationStoredIff(Before(log), o);
      EverStoredStep(log, o);
      StoredAfter(Replay(Before(log)), Last(log), o);
    }
  }

  /** For every run: the state is what the latest announcement or, of a stored organization, state change says. */
  lemma {:induction false} StateFromLog(log: seq<Event>, i: nat, o: Bytes8)
    requires Latest(log, i, e => Decides(e, o)) && (Announces(log[i]) || EverStored(log[..i], o))
    ensures IdString(o) in Replay(log).organizations && Says(log[i], Replay(log).organizations[IdString(o)].state)
  {
    var pre, e := Before(log), Last(log);
    LatestStep(log, i, e => Decides(e, o));
    if i < |log| - 1 {
      assert pre[..i] == log[..i];
      StateFromLog(pre, i, o);
    } else {
      assert log[..i] == pre;
      OrganizationStoredIff(pre, o);
    }
    StoredAfter(Replay(pre), e, o);
    StateAfter(Replay(pre), e, o);
  }

  /** For every run: an organization stored by member events and never decided on since is INACTIVE. */
  lemma {:induction false} StubIsInactive(log: seq<Event>, o: Bytes8)
    requires EverStored(log, o)
    requires forall i :: 0 <= i < |log| && Decides(log[i], o) ==> !Announces(log[i]) && !EverStored(log[..i], o)
    ensures IdString(o) in Replay(log).organizations
    ensures Replay(log).organizations[IdString(o)].state == OrgState.INACTIVE
  {
    var pre, e := Before(log), Last(log);
    Shorten(log);
    EverStoredStep(log, o);
    OrganizationStoredIff(pre, o);
    OrganizationStoredIff(log, o);
    if EverStored(pre, o) {
      StubIsInactive(pre, o);
    }
    assert Decides(log[|log| - 1], o) ==> !EverStored(pre, o);
    StateAfter(Replay(pre), e, o);
  }

  lemma LinksAfter(s: Store, e: Event, o: Bytes8)
    requires IdString(o) in Step(s, e).organizations && !(Announces(e) && e.organizationId == o)
    ensures var organization := Step(s, e).organizations[IdString(o)];
            && organization.creator == OrganizationOf(s.organizations, IdString(o)).creator
            && organization.treasury == OrganizationOf(s.organizations, IdString(o)).treasury
  {
    StoredAfter(s, e, o);
    OrganizationFrame(s, e);
  }

  /** For every run: an organization never announced has no creator and no treasury. */
  lemma {:induction false} StubIsUnlinked(log: seq<Event>, o: Bytes8)
    requires EverStored(log, o)
    requires forall i :: 0 <= i < |log| ==> !(Announces(log[i]) && log[i].organizationId == o)
    ensures var organizations := Replay(log).organizations;
            && IdString(o) in organizations && organizations[IdString(o)].creator == []
            && organizations[IdString(o)].treasury == None
  {
    var pre, e := Before(log), Last(log);
    Shorten(log);
    EverStoredStep(log, o);
    OrganizationStoredIff(pre, o);
    OrganizationStoredIff(log, o);
    if EverStored(pre, o) {
      StubIsUnlinked(pre, o);
    }
    assert e == log[|log| - 1];
    LinksAfter(Replay(pre), e, o);
  }
}
