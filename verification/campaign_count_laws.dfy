/**
 * Two counters that flow.ts keeps on other records: `Campaign.contributorCount` against the campaign's distinct
 * contributors, and `Organization.totalCampaigns` against the organization's stored campaigns.
 */
module CampaignCountLaws {
  import opened Text
  import opened Tally
  import opened Runs
  import opened SubgraphStore
  import opened FlowLaws

  // ----- contributorCount against the distinct contributors -----

  /** Event `i` is the latest creation of its campaign. */
  ghost predicate LatestCreation(log: seq<Event>, i: nat)
  {
    && i < |log| && log[i].CampaignCreated?
    && forall j :: i < j < |log| && log[j].CampaignCreated? ==> log[j].campaignId != log[i].campaignId
  }

  ghost predicate Backs(e: Event, id: Bytes)
  {
    e.ContributionMade? && e.campaignId == id
  }

  /** Who contributed to the campaign after event `i`. */
  ghost function Backers(log: seq<Event>, i: nat, id: Bytes): set<Bytes>
  {
    set j | i < j < |log| && Backs(log[j], id) :: log[j].contributor
  }

  /** After event `i` nobody contributes to the campaign twice. */
  ghost predicate BacksOnce(log: seq<Event>, i: nat, id: Bytes)
  {
    forall j, k :: i < j < k < |log| && Backs(log[j], id) && Backs(log[k], id) ==>
      log[j].contributor != log[k].contributor
  }

  lemma BackersStep(log: seq<Event>, i: nat, id: Bytes)
    requires i < |log| - 1
    ensures var pre, e := Before(log), Last(log);
            && Backers(log, i, id) == Backers(pre, i, id) + (if Backs(e, id) then {e.contributor} else {})
            && (BacksOnce(log, i, id) <==>
                  BacksOnce(pre, i, id) && (Backs(e, id) ==> e.contributor !in Backers(pre, i, id)))
  {
  }

  /** Contributions are counted, creations reset the count, nothing else touches it. */
  lemma ContributorsAfter(s: Store, e: Event, id: Bytes)
    requires ToHex(id) in s.campaigns || (e.CampaignCreated? && e.campaignId == id)
    ensures var t := Step(s, e);
            ToHex(id) in t.campaigns && t.campaigns[ToHex(id)].contributorCount ==
              if e.CampaignCreated? && e.campaignId == id then 0
              else s.campaigns[ToHex(id)].contributorCount + (if Backs(e, id) then 1 else 0)
  {
    if !TouchesCampaigns(e) {
      CampaignFrame(s, e);
    } else {
      if ToHex(e.campaignId) == ToHex(id) {
        ToHexInjective(e.campaignId, id);
      }
      if Pays(e) {
        PaymentSaved(s, e);
      } else {
        CampaignSaved(s, e);
      }
    }
  }

  /** For every run: a campaign's contributorCount is at least the number of distinct contributors since its latest
      creation, and exactly that number if and only if none of them contributed twice. */
  lemma {:induction false} ContributorCountLaw(log: seq<Event>, i: nat)
    requires LatestCreation(log, i)
    ensures var id := log[i].campaignId;
            var campaigns := Replay(log).campaigns;
            && ToHex(id) in campaigns && campaigns[ToHex(id)].contributorCount >= |Backers(log, i, id)|
            && (campaigns[ToHex(id)].contributorCount == |Backers(log, i, id)| <==> BacksOnce(log, i, id))
  {
    var pre, e, id := Before(log), Last(log), log[i].campaignId;
    Shorten(log);
    if i < |log| - 1 {
      ContributorCountLaw(pre, i);
      BackersStep(log, i, id);
      SetSizes(Backers(pre, i, id), if Backs(e, id) then e.contributor else []);
      assert Backs(e, id) || Backers(log, i, id) == Backers(pre, i, id);
    } else {
      assert Backers(log, i, id) == {};
    }
    ContributorsAfter(Replay(pre), e, id);
  }

  /** Somebody who contributes twice to a campaign is counted as two contributors. */
  lemma CountedTwice(created: Event, first: Event, second: Event)
    requires created.CampaignCreated? && Backs(first, created.campaignId) && Backs(second, created.campaignId)
    requires first.contributor == second.contributor
    ensures var log, id := [created, first, second], created.campaignId;
            && ToHex(id) in Replay(log).campaigns && Replay(log).campaigns[ToHex(id)].contributorCount == 2
            && Backers(log, 0, id) == {first.contributor}
  {
    var log, id := [created, first, second], created.campaignId;
    assert Before(log) == [created, first] && Before([created, first]) == [created] && Before([created]) == [];
    ContributorsAfter(EMPTY, created, id);
    ContributorsAfter(Replay([created]), first, id);
    ContributorsAfter(Replay([created, first]), second, id);
    assert log[1] == first && log[2] == second;
  }

  // ----- totalCampaigns of an organization against its stored campaigns -----

  ghost function CampaignsOf(campaigns: map<JsString, Campaign>, o: JsString): set<JsString>
  {
    set c | c in campaigns && campaigns[c].organization == o
  }

  ghost function OwnGap(o: JsString, s: Store): int
  {
    OrganizationOf(s.organizations, o).totalCampaigns - |CampaignsOf(s.campaigns, o)|
  }

  /** The number of campaigns an announcement carries: the chain's if there is chain data, none otherwise. */
  ghost function ReportedCampaigns(e: Event): int
    requires Announces(e)
  {
    if e.OrganizationCreated? && e.chain.Some? then e.chain.value.totalCampaigns else 0
  }

  /** An announcement puts its own number in place of the count; a campaign created while the organization is absent
      goes uncounted; a campaign created again stays counted where it was before. */
  ghost function OwnSlip(o: JsString, s: Store, e: Event): int
  {
    if Announces(e) && IdString(e.organizationId) == o then
      ReportedCampaigns(e) - OrganizationOf(s.organizations, o).totalCampaigns
    else if e.CampaignCreated? then
      One(ToHex(e.campaignId) in CampaignsOf(s.campaigns, o))
      - One(IdString(e.organizationId) == o && o !in s.organizations)
    else 0
  }

  /** What one event makes of the organization's count. */
  lemma OwnCountAfter(o: JsString, s: Store, e: Event)
    ensures OrganizationOf(Step(s, e).organizations, o).totalCampaigns ==
            if Announces(e) && IdString(e.organizationId) == o then ReportedCampaigns(e)
            else OrganizationOf(s.organizations, o).totalCampaigns +
                 One(e.CampaignCreated? && IdString(e.organizationId) == o && o in s.organizations)
  {
  }

  /** The organization's campaigns change by creations only. */
  lemma OwnCampaignsAfter(o: JsString, s: Store, e: Event)
    ensures CampaignsOf(Step(s, e).campaigns, o) ==
            if !e.CampaignCreated? then CampaignsOf(s.campaigns, o)
            else if IdString(e.organizationId) == o then CampaignsOf(s.campaigns, o) + {ToHex(e.campaignId)}
            else CampaignsOf(s.campaigns, o) - {ToHex(e.campaignId)}
  {
    if !TouchesCampaigns(e) {
      CampaignFrame(s, e);
    } else if Pays(e) {
      PaymentSaved(s, e);
    } else {
      CampaignSaved(s, e);
    }
  }

  lemma OwnStep(o: JsString, s: Store, e: Event)
    ensures OwnGap(o, Step(s, e)) == OwnGap(o, s) + OwnSlip(o, s, e)
  {
    OwnCountAfter(o, s, e);
    OwnCampaignsAfter(o, s, e);
    if e.CampaignCreated? {
      SetSizes(CampaignsOf(s.campaigns, o), ToHex(e.campaignId));
    }
  }

  /** For every run and organization: totalCampaigns = its stored campaigns + what single events let slip. */
  lemma OwnCampaignsLaw(log: seq<Event>, o: JsString)
    ensures OrganizationOf(Replay(log).organizations, o).totalCampaigns ==
            |CampaignsOf(Replay(log).campaigns, o)| + Drift(Step, EMPTY, log, (s, e) => OwnSlip(o, s, e))
  {
    assert CampaignsOf(EMPTY.campaigns, o) == {};
    forall s, e
      ensures OwnGap(o, Step(s, e)) == OwnGap(o, s) + OwnSlip(o, s, e)
    {
      OwnStep(o, s, e);
    }
    DriftLaw(Step, EMPTY, log, Any, s => OwnGap(o, s), (s, e) => OwnSlip(o, s, e));
  }

  ghost predicate OwnAgrees(o: JsString, s: Store)
  {
    OrganizationOf(s.organizations, o).totalCampaigns == |CampaignsOf(s.campaigns, o)|
  }

  /** An announcement reports the number of campaigns stored; a campaign that is not stored under the organization yet
      is created, and if for the organization, the organization is stored. */
  ghost predicate OwnCounted(o: JsString, s: Store, e: Event)
  {
    && (Announces(e) && IdString(e.organizationId) == o ==> ReportedCampaigns(e) == |CampaignsOf(s.campaigns, o)|)
    && (e.CampaignCreated? ==> ToHex(e.campaignId) !in CampaignsOf(s.campaigns, o))
    && (e.CampaignCreated? && IdString(e.organizationId) == o ==> o in s.organizations)
  }

  /** The count is the number of stored campaigns after every event if and only if every event is counted right. */
  lemma OwnAgreesIff(log: seq<Event>, o: JsString)
    ensures (forall n :: 0 <= n <= |log| ==> OwnAgrees(o, Replay(log[..n])))
            <==> (forall n :: 0 <= n < |log| ==> OwnCounted(o, Replay(log[..n]), log[n]))
  {
    assert CampaignsOf(EMPTY.campaigns, o) == {};
    var ok, keeps := s => OwnAgrees(o, s), (s, e) => OwnCounted(o, s, e);
    forall s, e
      ensures ok(s) ==> (ok(Step(s, e)) <==> keeps(s, e))
    {
      OwnStep(o, s, e);
      assert ok(s) && o !in s.organizations ==> CampaignsOf(s.campaigns, o) == {};
    }
    StaysIff(Step, EMPTY, log, Any, ok, keeps);
    assert forall n :: 0 <= n <= |log| ==> ok(Replay(log[..n])) == OwnAgrees(o, Replay(log[..n]));
    assert forall n :: 0 <= n < |log| ==> keeps(Replay(log[..n]), log[n]) == OwnCounted(o, Replay(log[..n]), log[n]);
  }

  /** A campaign created before its organization is stored is never counted. */
  lemma CampaignMissed(created: Event, added: Event)
    requires created.CampaignCreated? && added.MemberAdded? && added.organizationId == created.organizationId
    ensures var s, o := Replay([created, added]), IdString(created.organizationId);
            && o in s.organizations && s.organizations[o].totalCampaigns == 0
            && CampaignsOf(s.campaigns, o) == {ToHex(created.campaignId)}
  {
    var o := IdString(created.organizationId);
    assert Before([created, added]) == [created] && Before([created]) == [];
    assert Replay([]) == EMPTY && CampaignsOf(EMPTY.campaigns, o) == {};
    assert Replay([created]) == Step(EMPTY, created);
    OwnCampaignsAfter(o, EMPTY, created);
    OwnCampaignsAfter(o, Replay([created]), added);
    OwnCountAfter(o, EMPTY, created);
    OwnCountAfter(o, Replay([created]), added);
  }
}
