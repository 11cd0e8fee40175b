/**
 * What control.ts and factory.ts keep about organizations: `activeOrganizations` against the
 * organizations that are ACTIVE, `totalOrganizations` against users and announced organizations, and
 * the links from organizations to treasuries and users. Each law holds for every run of all mappings.
 */
module OrganizationLaws {
  import opened Text
  import opened Tally
  import opened Runs
  import opened SubgraphStore

  // ----- activeOrganizations against the organizations that are ACTIVE -----

  ghost function ActiveIds(organizations: map<JsString, Organization>): set<JsString>
  {
    set id | id in organizations && organizations[id].state == OrgState.ACTIVE
  }

  ghost predicate IsActive(s: Store, id: JsString)
  {
    id in s.organizations && s.organizations[id].state == OrgState.ACTIVE
  }

  ghost function ActiveGap(s: Store): int
  {
    StatsOf(s.stats).activeOrganizations - |ActiveIds(s.organizations)|
  }

  /** Codes 0, 2 and 3 are INACTIVE, LOCKED and DISSOLVED; every other code is read as ACTIVE. */
  ghost predicate ActiveCode(n: int)
  {
    n != 0 && n != 2 && n != 3
  }

  /** The factory and an announcement without chain data say ACTIVE; otherwise the chain's code decides. */
  ghost predicate AnnouncesActive(e: Event)
    requires Announces(e)
  {
    e.FactoryOrganizationCreated? || e.chain.None? || ActiveCode(e.chain.value.state)
  }

  /** The change of the ACTIVE set a state event asks for. */
  ghost function StateShift(s: Store, e: Event): int
    requires e.OrganizationStateChanged?
  {
    var id := IdString(e.organizationId);
    if id in s.organizations then ActiveShift(IsActive(s, id), ActiveCode(e.newState)) else 0
  }

  /** An announcement is counted even if saved non-ACTIVE, and even if it replaces an ACTIVE record;
      a state change is not counted at all while there is no global record. */
  ghost function ActiveSlip(s: Store, e: Event): int
  {
    if Announces(e) then
      (if AnnouncesActive(e) then 0 else 1)
      + (if IsActive(s, IdString(e.organizationId)) then 1 else 0)
    else if e.OrganizationStateChanged? && s.stats.None? then -StateShift(s, e)
    else 0
  }

  lemma ActiveAfterSave(organizations: map<JsString, Organization>, id: JsString, o: Organization)
    ensures |ActiveIds(organizations[id := o])| == |ActiveIds(organizations)| +
              ActiveShift(id in organizations && organizations[id].state == OrgState.ACTIVE, o.state == OrgState.ACTIVE)
  {
    var was, now := ActiveIds(organizations), ActiveIds(organizations[id := o]);
    if o.state == OrgState.ACTIVE {
      assert now == was + {id};
    } else {
      assert now == was - {id};
    }
  }

  /** The only events that can change which organizations are ACTIVE, or count them. */
  predicate SetsOrgState(e: Event)
  {
    Announces(e) || e.OrganizationStateChanged?
  }

  /** The id of the organization record an event saves; any id will do for the others. */
  function SavedOrganization(e: Event): JsString
  {
    if e.CampaignCreated? || e.OrganizationStateChanged? || Announces(e)
       || e.MemberAdded? || e.MemberRemoved? || e.VotingDelegated?
    then IdString(e.organizationId) else []
  }

  /** Every event saves at most one organization record; apart from announcements and state changes it
      keeps that record's state and links, a new stub being INACTIVE and unlinked. */
  lemma OrganizationFrame(s: Store, e: Event)
    ensures var id, t := SavedOrganization(e), Step(s, e);
            && (t.organizations == s.organizations
                || (id in t.organizations && t.organizations == s.organizations[id := t.organizations[id]]))
            && (!SetsOrgState(e) && id in t.organizations ==>
                  t.organizations[id].state == OrganizationOf(s.organizations, id).state)
            && (!Announces(e) && id in t.organizations ==>
                  t.organizations[id].treasury == OrganizationOf(s.organizations, id).treasury
                  && t.organizations[id].creator == OrganizationOf(s.organizations, id).creator)
  {
  }

  lemma StatsFrame(s: Store, e: Event)
    ensures s.stats.Some? ==> Step(s, e).stats.Some?
    ensures !SetsOrgState(e) ==> StatsOf(Step(s, e).stats).activeOrganizations == StatsOf(s.stats).activeOrganizations
    ensures !Announces(e) ==> StatsOf(Step(s, e).stats).totalOrganizations == StatsOf(s.stats).totalOrganizations
    ensures s.stats.None? ==> (Step(s, e).stats.Some? <==> CreatesStats(e))
  {
  }

  lemma ActiveStep(s: Store, e: Event)
    ensures ActiveGap(Step(s, e)) == ActiveGap(s) + ActiveSlip(s, e)
  {
    var id, t := SavedOrganization(e), Step(s, e);
    StatsFrame(s, e);
    OrganizationFrame(s, e);
    if id in t.organizations {
      ActiveAfterSave(s.organizations, id, t.organizations[id]);
    }
  }

  lemma ActiveAccounts()
    ensures Accounts(Step, EMPTY, Any, ActiveGap, ActiveSlip)
  {
    assert ActiveIds(EMPTY.organizations) == {};
    forall s, e
      ensures ActiveGap(Step(s, e)) == ActiveGap(s) + ActiveSlip(s, e)
    {
      ActiveStep(s, e);
    }
  }

  /** For every run: activeOrganizations = the number of ACTIVE organizations + what single events let slip. */
  lemma ActiveOrganizationsLaw(log: seq<Event>)
    ensures StatsOf(Replay(log).stats).activeOrganizations ==
            |ActiveIds(Replay(log).organizations)| + Drift(Step, EMPTY, log, ActiveSlip)
  {
    ActiveAccounts();
    DriftLaw(Step, EMPTY, log, Any, ActiveGap, ActiveSlip);
  }

  ghost predicate ActiveAgrees(s: Store)
  {
    StatsOf(s.stats).activeOrganizations == |ActiveIds(s.organizations)|
  }

  /** An announcement is of a new or non-ACTIVE id and saves ACTIVE; a state change into or out of ACTIVE
      finds the global record. */
  ghost predicate CountedRight(s: Store, e: Event)
  {
    && (Announces(e) ==> AnnouncesActive(e) && !IsActive(s, IdString(e.organizationId)))
    && (e.OrganizationStateChanged? && s.stats.None? ==> StateShift(s, e) == 0)
  }

  /** The counter is exact after every event if and only if every event is counted right. */
  lemma ActiveAgreesIff(log: seq<Event>)
    ensures (forall n :: 0 <= n <= |log| ==> ActiveAgrees(Replay(log[..n])))
            <==> (forall n :: 0 <= n < |log| ==> CountedRight(Replay(log[..n]), log[n]))
  {
    assert ActiveIds(EMPTY.organizations) == {};
    forall s, e
      ensures ActiveAgrees(s) ==> (ActiveAgrees(Step(s, e)) <==> CountedRight(s, e))
    {
      ActiveStep(s, e);
    }
    StaysIff(Step, EMPTY, log, Any, ActiveAgrees, CountedRight);
  }

  ghost predicate NoUndercount(s: Store)
  {
    StatsOf(s.stats).activeOrganizations >= |ActiveIds(s.organizations)|
  }

  /** The event is not a state change that makes a stored organization ACTIVE before there is a global record. */
  ghost predicate NotActivatedEarly(s: Store, e: Event)
  {
    e.OrganizationStateChanged? && s.stats.None? ==> StateShift(s, e) <= 0
  }

  /** The counter never falls below the number of ACTIVE organizations if and only if no organization is
      activated while the global record is missing. */
  lemma NeverUndercountsIff(log: seq<Event>)
    ensures (forall n :: 0 <= n <= |log| ==> NoUndercount(Replay(log[..n])))
            <==> (forall n :: 0 <= n < |log| ==> NotActivatedEarly(Replay(log[..n]), log[n]))
  {
    assert ActiveIds(EMPTY.organizations) == {};
    forall s, e
      ensures NoUndercount(s) ==> (NoUndercount(Step(s, e)) <==> NotActivatedEarly(s, e))
    {
      ActiveStep(s, e);
    }
    StaysIff(Step, EMPTY, log, Any, NoUndercount, NotActivatedEarly);
  }

  /** The global record exists exactly from the first event on that creates it: an announcement, a campaign, a
      module change or a proposal. */
  lemma {:induction false} StatsExistIff(log: seq<Event>)
    ensures Replay(log).stats.Some? <==> exists i :: 0 <= i < |log| && CreatesStats(log[i])
  {
    if log != [] {
      StatsExistIff(Before(log));
      StatsFrame(Replay(Before(log)), Last(log));
      assert forall i :: 0 <= i < |log| - 1 ==> Before(log)[i] == log[i];
      assert log[|log| - 1] == Last(log);
    }
  }

  /** A member event may store a stub that a state change then activates uncounted. */
  lemma UndercountHappens(organization: Bytes8, member: Bytes)
    ensures var log := [MemberAdded(organization, member), OrganizationStateChanged(organization, 1)];
            && StatsOf(Replay(log).stats).activeOrganizations == 0
            && |ActiveIds(Replay(log).organizations)| == 1
  {
    var added, changed := MemberAdded(organization, member), OrganizationStateChanged(organization, 1);
    var s := Step(EMPTY, added);
    assert Fold(Step, EMPTY, []) == EMPTY;
    assert Before([added]) == [] && Replay([added]) == s;
    assert Before([added, changed]) == [added];
    var t := Step(s, changed);
    assert Replay([added, changed]) == t;
    assert ActiveIds(t.organizations) == {IdString(organization)};
  }

  // ----- totalOrganizations against users and announced organizations -----

  ghost function Owned(users: map<JsString, User>): map<JsString, int>
  {
    map id | id in users :: users[id].totalOrganizations
  }

  ghost predicate OwnersCounted(s: Store)
  {
    Total(Owned(s.users)) == StatsOf(s.stats).totalOrganizations
  }

  lemma OwnedAfterSave(users: map<JsString, User>, id: JsString, u: User)
    ensures Total(Owned(users[id := u])) ==
            Total(Owned(users)) + u.totalOrganizations - UserOf(users, id).totalOrganizations
  {
    assert Owned(users[id := u]) == Owned(users)[id := u.totalOrganizations];
    TotalUpdate(Owned(users), id, u.totalOrganizations);
  }

  lemma SeenOwnsNothingNew(users: map<JsString, User>, id: JsString)
    ensures Total(Owned(Seen(users, id))) == Total(Owned(users))
  {
    OwnedAfterSave(users, id, UserOf(users, id));
  }

  lemma PaymentOwnsNothingNew(s: Store, key: JsString, paid: Contribution, k: int, user: JsString, n: int)
    ensures Total(Owned(AfterPayment(s, key, paid, k, user, n).users)) == Total(Owned(s.users))
  {
    OwnedAfterSave(s.users, user, AfterPayment(s, key, paid, k, user, n).users[user]);
  }

  predicate TouchesUsers(e: Event)
  {
    || e.CampaignCreated? || e.ContributionMade? || e.ContributionRefunded? || Announces(e)
    || e.StakeWithdrawn? || e.MemberAdded? || e.VotingDelegated? || e.ProposalCreated?
  }

  lemma UsersFrame(s: Store, e: Event)
    requires !TouchesUsers(e)
    ensures Step(s, e).users == s.users
  {
  }

  /** Payments, sightings and member events leave every user's organization count alone. */
  lemma OwnedFrame(s: Store, e: Event)
    requires !Announces(e)
    ensures Total(Owned(Step(s, e).users)) == Total(Owned(s.users))
  {
    if !TouchesUsers(e) {
      UsersFrame(s, e);
    } else if e.ContributionMade? {
      PaymentOwnsNothingNew(s, PaidKey(e), Paid(e), 1, UserKey(e.contributor), 1);
    } else if e.ContributionRefunded? {
      PaymentOwnsNothingNew(s, PaidKey(e), Paid(e), 0, UserKey(e.contributor), 0);
    } else if e.VotingDelegated? {
      SeenOwnsNothingNew(s.users, ToHex(e.delegator));
      SeenOwnsNothingNew(Seen(s.users, ToHex(e.delegator)), ToHex(e.delegatee));
    } else {
      SeenOwnsNothingNew(s.users, if e.CampaignCreated? || e.ProposalCreated? then UserKey(e.creator)
                                  else if e.StakeWithdrawn? then UserKey(e.staker) else ToHex(e.member));
    }
  }

  lemma OwnersStep(s: Store, e: Event)
    requires OwnersCounted(s)
    ensures OwnersCounted(Step(s, e))
  {
    if Announces(e) {
      var user := UserKey(e.creator);
      OwnedAfterSave(s.users, user, Step(s, e).users[user]);
    } else {
      StatsFrame(s, e);
      OwnedFrame(s, e);
    }
  }

  /** Organizations that an announcement has written: only those have a treasury. */
  ghost function Written(s: Store): set<JsString>
  {
    set id | id in s.organizations && s.organizations[id].treasury.Some?
  }

  ghost function WrittenGap(s: Store): int
  {
    StatsOf(s.stats).totalOrganizations - |Written(s)|
  }

  /** An announcement of an organization that has been announced before is counted again. */
  ghost function WrittenSlip(s: Store, e: Event): int
  {
    if Announces(e) && IdString(e.organizationId) in Written(s) then 1 else 0
  }

  lemma WrittenAfter(s: Store, e: Event)
    ensures Written(Step(s, e)) == if Announces(e) then Written(s) + {IdString(e.organizationId)} else Written(s)
  {
    OrganizationFrame(s, e);
    if Announces(e) {
      assert Step(s, e).organizations[IdString(e.organizationId)] == AnnouncedOrganization(e);
    }
  }

  lemma WrittenStep(s: Store, e: Event)
    ensures WrittenGap(Step(s, e)) == WrittenGap(s) + WrittenSlip(s, e)
  {
    WrittenAfter(s, e);
    StatsFrame(s, e);
    if WrittenSlip(s, e) == 1 {
      assert Written(Step(s, e)) == Written(s);
    }
  }

  lemma {:induction false} WrittenIff(log: seq<Event>, id: JsString)
    ensures id in Written(Replay(log)) <==>
            exists i :: 0 <= i < |log| && Announces(log[i]) && IdString(log[i].organizationId) == id
  {
    if log != [] {
      var pre := Before(log);
      WrittenIff(pre, id);
      WrittenAfter(Replay(pre), Last(log));
      assert forall i :: 0 <= i < |pre| ==> pre[i] == log[i];
      assert log[|log| - 1] == Last(log);
    }
  }

  ghost predicate AnnouncedOnce(log: seq<Event>)
  {
    forall i, j :: 0 <= i < j < |log| && Announces(log[i]) && Announces(log[j]) ==>
      log[i].organizationId != log[j].organizationId
  }

  lemma NoneAnnouncedAgain(log: seq<Event>)
    ensures AnnouncedOnce(log) <==> NothingSlips(Step, EMPTY, log, WrittenSlip)
  {
    forall n | 0 <= n < |log|
      ensures WrittenSlip(Replay(log[..n]), log[n]) == 0 <==>
              (Announces(log[n]) ==>
                 forall i :: 0 <= i < n && Announces(log[i]) ==> log[i].organizationId != log[n].organizationId)
    {
      if Announces(log[n]) {
        WrittenIff(log[..n], IdString(log[n].organizationId));
        assert forall i :: 0 <= i < n ==> log[..n][i] == log[i];
      }
    }
  }

  /** For every run: the users' counts sum to totalOrganizations, which is at least the number of announced
      organizations, and exactly that number if and only if none is announced twice. */
  lemma TotalOrganizationsLaw(log: seq<Event>)
    ensures OwnersCounted(Replay(log))
    ensures |Written(Replay(log))| <= StatsOf(Replay(log).stats).totalOrganizations
    ensures |Written(Replay(log))| == StatsOf(Replay(log).stats).totalOrganizations <==> AnnouncedOnce(log)
  {
    OwnersLaw(log);
    assert Written(EMPTY) == {};
    forall s, e
      ensures WrittenGap(Step(s, e)) == WrittenGap(s) + WrittenSlip(s, e)
    {
      WrittenStep(s, e);
    }
    DriftLaw(Step, EMPTY, log, Any, WrittenGap, WrittenSlip);
    DriftNonNegative(Step, EMPTY, log, WrittenSlip);
    NoneAnnouncedAgain(log);
  }

  lemma {:induction false} OwnersLaw(log: seq<Event>)
    ensures OwnersCounted(Replay(log))
  {
    if log != [] {
      OwnersLaw(Before(log));
      OwnersStep(Replay(Before(log)), Last(log));
    }
  }

  // ----- links -----

  lemma UsersStay(s: Store, e: Event, id: JsString)
    ensures id in s.users ==> id in Step(s, e).users
  {
  }

  lemma TreasuriesFrame(s: Store, e: Event)
    ensures Step(s, e).treasuries ==
            if Announces(e) then s.treasuries[ToHex(e.treasury) := Treasury(IdString(e.organizationId))]
            else s.treasuries
  {
  }

  ghost predicate LastAnnouncement(log: seq<Event>, i: nat)
  {
    && i < |log| && Announces(log[i])
    && forall j :: i < j < |log| && Announces(log[j]) ==> log[j].organizationId != log[i].organizationId
  }

  ghost predicate TreasuryTaken(log: seq<Event>, i: nat)
    requires i < |log| && Announces(log[i])
  {
    exists j :: i < j < |log| && Announces(log[j]) && log[j].treasury == log[i].treasury
  }

  lemma TreasuryTakenStep(log: seq<Event>, i: nat)
    requires i < |log| - 1 && Announces(log[i])
    ensures Announces(Before(log)[i])
    ensures TreasuryTaken(log, i) <==>
            TreasuryTaken(Before(log), i) || (Announces(Last(log)) && Last(log).treasury == log[i].treasury)
  {
    Shorten(log);
    if TreasuryTaken(Before(log), i) {
      var j :| i < j < |Before(log)| && Announces(Before(log)[j]) && Before(log)[j].treasury == log[i].treasury;
      assert log[j] == Before(log)[j];
    }
  }

  ghost predicate Backlink(s: Store, e: Event)
    requires Announces(e)
  {
    var id, t := IdString(e.organizationId), ToHex(e.treasury);
    t in s.treasuries && s.treasuries[t].organization == id
  }

  /** The record an announcement wrote still stands, and so do its creator and treasury. */
  ghost predicate Stands(s: Store, e: Event)
    requires Announces(e)
  {
    var id, t := IdString(e.organizationId), ToHex(e.treasury);
    && id in s.organizations && s.organizations[id].treasury == Some(t) && t in s.treasuries
    && s.organizations[id].creator == ToHex(e.creator) && s.organizations[id].creator in s.users
  }

  lemma AnnouncementStands(s: Store, e: Event)
    requires Announces(e)
    ensures Stands(Step(s, e), e) && Backlink(Step(s, e), e)
  {
    ToHexIsLowerCase(e.creator);
    assert Step(s, e).organizations[IdString(e.organizationId)] == AnnouncedOrganization(e);
  }

  lemma StandsAfter(s: Store, a: Event, e: Event)
    requires Announces(a) && Stands(s, a)
    requires Announces(e) ==> e.organizationId != a.organizationId
    ensures Stands(Step(s, e), a)
    ensures Backlink(Step(s, e), a) <==> Backlink(s, a) && !(Announces(e) && e.treasury == a.treasury)
  {
    OrganizationFrame(s, e);
    TreasuriesFrame(s, e);
    UsersStay(s, e, ToHex(a.creator));
    if Announces(e) && ToHex(e.treasury) == ToHex(a.treasury) {
      ToHexInjective(e.treasury, a.treasury);
    }
  }

  /** For every run: an announced organization's creator is a stored user and its treasury a stored treasury, which
      points back if and only if no announcement of another organization has since named the same treasury. */
  lemma {:induction false} BacklinkIff(log: seq<Event>, i: nat)
    requires LastAnnouncement(log, i)
    ensures Stands(Replay(log), log[i])
    ensures Backlink(Replay(log), log[i]) <==> !TreasuryTaken(log, i)
  {
    var pre := Before(log);
    Shorten(log);
    if i == |log| - 1 {
      AnnouncementStands(Replay(pre), Last(log));
    } else {
      BacklinkIff(pre, i);
      StandsAfter(Replay(pre), log[i], Last(log));
      TreasuryTakenStep(log, i);
    }
  }

  /** Every announced organization has a stored creator and a treasury that points back to it. */
  ghost predicate Linked(s: Store)
  {
    forall id :: id in Written(s) ==>
      && s.organizations[id].creator in s.users
      && s.organizations[id].treasury.value in s.treasuries
      && s.treasuries[s.organizations[id].treasury.value].organization == id
  }

  ghost predicate TreasuriesNotShared(log: seq<Event>)
  {
    forall i, j :: 0 <= i < j < |log| && Announces(log[i]) && Announces(log[j])
                   && log[i].treasury == log[j].treasury ==>
      log[i].organizationId == log[j].organizationId
  }

  lemma {:induction false} LatestAnnouncement(log: seq<Event>, id: JsString) returns (i: nat)
    requires id in Written(Replay(log))
    ensures LastAnnouncement(log, i) && IdString(log[i].organizationId) == id
  {
    var pre, e := Before(log), Last(log);
    if Announces(e) && IdString(e.organizationId) == id {
      i := |log| - 1;
    } else {
      WrittenAfter(Replay(pre), e);
      i := LatestAnnouncement(pre, id);
      assert forall j :: 0 <= j < |pre| ==> pre[j] == log[j];
    }
  }

  /** If different organizations never share a treasury, every link holds, re-announcements included. */
  lemma LinksHold(log: seq<Event>)
    requires TreasuriesNotShared(log)
    ensures Linked(Replay(log))
  {
    forall id | id in Written(Replay(log))
      ensures var s := Replay(log);
              && s.organizations[id].creator in s.users
              && s.organizations[id].treasury.value in s.treasuries
              && s.treasuries[s.organizations[id].treasury.value].organization == id
    {
      var i := LatestAnnouncement(log, id);
      BacklinkIff(log, i);
    }
  }
}
