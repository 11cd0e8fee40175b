/**
 * What the fundraising totals of flow.ts are worth: the global `totalRaised` against the campaigns'
 * `raised`, each `raised` against its contribution records, and `activeCampaigns` against the
 * campaigns that are ACTIVE. Each law holds for every run of all mappings.
 */
module FlowLaws {
  import opened Text
  import opened Tally
  import opened Runs
  import opened SubgraphStore

  /** A campaign is only ever created together with the global record. */
  ghost predicate CampaignsHaveStats(s: Store)
  {
    s.campaigns != map[] ==> s.stats.Some?
  }

  // ----- raised against totalRaised -----

  ghost function Raised(campaigns: map<JsString, Campaign>): map<JsString, int>
  {
    map id | id in campaigns :: campaigns[id].raised
  }

  lemma RaisedAfterSave(campaigns: map<JsString, Campaign>, id: JsString, c: Campaign)
    ensures Total(Raised(campaigns[id := c])) ==
            Total(Raised(campaigns)) + c.raised - (if id in campaigns then campaigns[id].raised else 0)
  {
    assert Raised(campaigns[id := c]) == Raised(campaigns)[id := c.raised];
    TotalUpdate(Raised(campaigns), id, c.raised);
  }

  ghost function RaisedGap(s: Store): int
  {
    Total(Raised(s.campaigns)) - StatsOf(s.stats).totalRaised
  }

  /** A finalisation overwrites `raised` and a re-creation zeroes it; neither touches `totalRaised`. */
  ghost function RaisedSlip(s: Store, e: Event): int
  {
    if e.CampaignFinalized? && ToHex(e.campaignId) in s.campaigns then
      e.totalRaised - s.campaigns[ToHex(e.campaignId)].raised
    else if e.CampaignCreated? && ToHex(e.campaignId) in s.campaigns then
      -s.campaigns[ToHex(e.campaignId)].raised
    else 0
  }

  lemma RaisedPayment(s: Store, key: JsString, paid: Contribution, k: int, user: JsString, n: int)
    requires CampaignsHaveStats(s)
    ensures RaisedGap(AfterPayment(s, key, paid, k, user, n)) == RaisedGap(s)
  {
    if paid.campaign in s.campaigns {
      RaisedAfterSave(s.campaigns, paid.campaign,
                      MovedCampaigns(s.campaigns, paid.campaign, paid.amount, k)[paid.campaign]);
    }
  }

  predicate TouchesCampaigns(e: Event)
  {
    || e.ContributionMade? || e.ContributionRefunded?
    || e.CampaignCreated? || e.CampaignStateChanged? || e.CampaignFinalized?
  }

  /** The campaign counters of the global record, read as zero while there is none. */
  function CampaignCounters(s: Store): (int, int)
  {
    (StatsOf(s.stats).totalRaised, StatsOf(s.stats).activeCampaigns)
  }

  /** Events of the other mappings leave the campaigns, their payments and their counters alone. */
  lemma CampaignFrame(s: Store, e: Event)
    requires !TouchesCampaigns(e)
    ensures Step(s, e).campaigns == s.campaigns && Step(s, e).contributions == s.contributions
    ensures CampaignCounters(Step(s, e)) == CampaignCounters(s)
    ensures s.stats.Some? ==> Step(s, e).stats.Some?
  {
  }

  /** The record a campaign event saves, if it saves one. */
  lemma CampaignSaved(s: Store, e: Event)
    requires e.CampaignCreated? || e.CampaignStateChanged? || e.CampaignFinalized?
    ensures var id, t := ToHex(e.campaignId), Step(s, e);
            && t.contributions == s.contributions
            && (if e.CampaignCreated? || id in s.campaigns then
                  id in t.campaigns && t.campaigns == s.campaigns[id := t.campaigns[id]]
                  && t.campaigns[id].raised == (if e.CampaignCreated? then 0
                                                else if e.CampaignFinalized? then e.totalRaised
                                                else s.campaigns[id].raised)
                  && t.campaigns[id].contributorCount == (if e.CampaignCreated? then 0
                                                          else s.campaigns[id].contributorCount)
                  && t.campaigns[id].organization == (if e.CampaignCreated? then IdString(e.organizationId)
                                                      else s.campaigns[id].organization)
                  && t.campaigns[id].creator == (if e.CampaignCreated? then ToHex(e.creator)
                                                 else s.campaigns[id].creator)
                else t == s)
            && (CampaignsHaveStats(s) ==> CampaignsHaveStats(t))
            && StatsOf(t.stats).totalRaised == StatsOf(s.stats).totalRaised
  {
  }

  ghost predicate Pays(e: Event)
  {
    e.ContributionMade? || e.ContributionRefunded?
  }

  /** A payment moves the amount and the contributors of its campaign, if that is stored, and no other campaign. */
  lemma PaymentSaved(s: Store, e: Event)
    requires Pays(e)
    ensures Step(s, e).campaigns ==
            MovedCampaigns(s.campaigns, ToHex(e.campaignId), Paid(e).amount, if e.ContributionMade? then 1 else 0)
  {
  }

  lemma RaisedCampaignEvent(s: Store, e: Event)
    requires e.CampaignCreated? || e.CampaignStateChanged? || e.CampaignFinalized?
    ensures RaisedGap(Step(s, e)) == RaisedGap(s) + RaisedSlip(s, e)
  {
    var id, t := ToHex(e.campaignId), Step(s, e);
    CampaignSaved(s, e);
    if id in t.campaigns {
      RaisedAfterSave(s.campaigns, id, t.campaigns[id]);
    }
  }

  lemma RaisedStep(s: Store, e: Event)
    requires CampaignsHaveStats(s)
    ensures CampaignsHaveStats(Step(s, e))
    ensures RaisedGap(Step(s, e)) == RaisedGap(s) + RaisedSlip(s, e)
  {
    if !TouchesCampaigns(e) {
      CampaignFrame(s, e);
    } else if e.ContributionMade? {
      RaisedPayment(s, PaidKey(e), Paid(e), 1, UserKey(e.contributor), 1);
    } else if e.ContributionRefunded? {
      RaisedPayment(s, PaidKey(e), Paid(e), 0, UserKey(e.contributor), 0);
    } else {
      CampaignSaved(s, e);
      RaisedCampaignEvent(s, e);
    }
  }

  lemma RaisedAccounts()
    ensures Accounts(Step, EMPTY, CampaignsHaveStats, RaisedGap, RaisedSlip)
  {
    forall s, e | CampaignsHaveStats(s)
      ensures CampaignsHaveStats(Step(s, e)) && RaisedGap(Step(s, e)) == RaisedGap(s) + RaisedSlip(s, e)
    {
      RaisedStep(s, e);
    }
  }

  /** For every run: campaigns' raised = totalRaised + what finalisations and re-creations let slip. */
  lemma RaisedLaw(log: seq<Event>)
    ensures Total(Raised(Replay(log).campaigns)) ==
            StatsOf(Replay(log).stats).totalRaised + Drift(Step, EMPTY, log, RaisedSlip)
  {
    RaisedAccounts();
    DriftLaw(Step, EMPTY, log, CampaignsHaveStats, RaisedGap, RaisedSlip);
  }

  /** Finalisations report the indexed amount, and only campaigns with nothing raised are created again. */
  ghost predicate ReportsIndexedAmount(s: Store, e: Event)
  {
    && (e.CampaignFinalized? && ToHex(e.campaignId) in s.campaigns ==>
          e.totalRaised == s.campaigns[ToHex(e.campaignId)].raised)
    && (e.CampaignCreated? && ToHex(e.campaignId) in s.campaigns ==>
          s.campaigns[ToHex(e.campaignId)].raised == 0)
  }

  ghost predicate RaisedAgrees(s: Store)
  {
    Total(Raised(s.campaigns)) == StatsOf(s.stats).totalRaised
  }

  /** The two totals agree after every event exactly when every event reports the indexed amount. */
  lemma RaisedAgreesIff(log: seq<Event>)
    ensures (forall n :: 0 <= n <= |log| ==> RaisedAgrees(Replay(log[..n])))
            <==> (forall n :: 0 <= n < |log| ==> ReportsIndexedAmount(Replay(log[..n]), log[n]))
  {
    forall s, e | CampaignsHaveStats(s)
      ensures CampaignsHaveStats(Step(s, e))
      ensures RaisedAgrees(s) ==> (RaisedAgrees(Step(s, e)) <==> ReportsIndexedAmount(s, e))
    {
      RaisedStep(s, e);
    }
    StaysIff(Step, EMPTY, log, CampaignsHaveStats, RaisedAgrees, ReportsIndexedAmount);
  }

  lemma ReplayCons(log: seq<Event>, e: Event)
    ensures Replay(log + [e]) == Step(Replay(log), e)
  {
    assert Before(log + [e]) == log;
  }

  lemma OneCampaign(s: Store, id: JsString)
    requires s.campaigns.Keys == {id}
    ensures Total(Raised(s.campaigns)) == s.campaigns[id].raised
  {
    assert Raised(s.campaigns) == map[][id := s.campaigns[id].raised];
    TotalUpdate(map[], id, s.campaigns[id].raised);
  }

  /** A campaign that is created, gets `paid` and is finalised with `reported` shows `reported` as raised, while
      totalRaised shows `paid`. */
  lemma RaisedDriftHappens(created: Event, paid: Event, final: Event)
    requires created.CampaignCreated? && paid.ContributionMade? && final.CampaignFinalized?
    requires created.campaignId == paid.campaignId == final.campaignId
    ensures var s := Replay([created, paid, final]);
            Total(Raised(s.campaigns)) == final.totalRaised && StatsOf(s.stats).totalRaised == paid.amount
  {
    var id := ToHex(created.campaignId);
    assert Replay([]) == EMPTY;
    ReplayCons([], created);
    ReplayCons([created], paid);
    ReplayCons([created, paid], final);
    assert [] + [created] == [created] && [created] + [paid] == [created, paid];
    assert [created, paid] + [final] == [created, paid, final];
    OneCampaign(Replay([created, paid, final]), id);
  }

  // ----- raised against the campaign's own contribution records -----

  /** The amounts of one campaign's records, refunds being negative. */
  ghost function Records(contributions: map<JsString, Contribution>, id: JsString): map<JsString, int>
  {
    map k | k in contributions && contributions[k].campaign == id :: contributions[k].amount
  }

  ghost predicate FiledUnder(key: JsString, r: Contribution)
  {
    && DashFree(r.campaign) && DashFree(r.contributor) && DashFree(r.transaction)
    && (key == ContributionKey(r.campaign, r.contributor, r.transaction)
        || key == RefundKey(r.campaign, r.contributor, r.transaction))
  }

  /** Every record is stored under the id built from its own campaign, contributor and transaction. */
  ghost predicate Filed(s: Store)
  {
    forall k :: k in s.contributions ==> FiledUnder(k, s.contributions[k])
  }

  /** Records that share a key belong to the same campaign: one is never stored over another campaign's. */
  lemma SameKeySameCampaign(key: JsString, r: Contribution, q: Contribution)
    requires FiledUnder(key, r) && FiledUnder(key, q)
    ensures r.campaign == q.campaign && r.contributor == q.contributor && r.transaction == q.transaction
  {
    ContributionKeyInjective(r.campaign, r.contributor, r.transaction, q.campaign, q.contributor, q.transaction);
    RefundKeyInjective(r.campaign, r.contributor, r.transaction, q.campaign, q.contributor, q.transaction);
    RefundIsNotContribution(r.campaign, r.contributor, r.transaction, q.campaign, q.contributor, q.transaction);
    RefundIsNotContribution(q.campaign, q.contributor, q.transaction, r.campaign, r.contributor, r.transaction);
  }

  lemma PaidIsFiled(e: Event)
    requires e.ContributionMade? || e.ContributionRefunded?
    ensures FiledUnder(PaidKey(e), Paid(e))
  {
    ToHexDashFree(e.campaignId);
    ToHexDashFree(e.contributor);
    ToHexDashFree(e.transaction);
  }

  ghost predicate LedgerInv(s: Store)
  {
    CampaignsHaveStats(s) && Filed(s)
  }

  ghost function LedgerGap(id: JsString, s: Store): int
  {
    if id in s.campaigns then s.campaigns[id].raised - Total(Records(s.contributions, id)) else 0
  }

  /** What an event lets slip between campaign `id` and its records. */
  ghost function LedgerSlip(id: JsString, s: Store, e: Event): int
  {
    if !TouchesCampaigns(e) || ToHex(e.campaignId) != id then 0
    else if e.CampaignCreated? then
      (if id in s.campaigns then -s.campaigns[id].raised else -Total(Records(s.contributions, id)))
    else if id !in s.campaigns then 0
    else if e.CampaignFinalized? then e.totalRaised - s.campaigns[id].raised
    else if e.CampaignStateChanged? then 0
    else if PaidKey(e) in s.contributions then s.contributions[PaidKey(e)].amount
    else 0
  }

  lemma RecordsAfterSave(contributions: map<JsString, Contribution>, key: JsString, r: Contribution, id: JsString)
    requires key in contributions ==> contributions[key].campaign == r.campaign
    ensures var next := Records(contributions[key := r], id);
            if id == r.campaign then
              Total(next) == Total(Records(contributions, id)) + r.amount
                             - (if key in contributions then contributions[key].amount else 0)
            else next == Records(contributions, id)
  {
    if id == r.campaign {
      assert Records(contributions[key := r], id) == Records(contributions, id)[key := r.amount];
      TotalUpdate(Records(contributions, id), key, r.amount);
    }
  }

  lemma LedgerPayment(id: JsString, s: Store, key: JsString, paid: Contribution, k: int, user: JsString, n: int)
    requires LedgerInv(s) && FiledUnder(key, paid)
    ensures var t := AfterPayment(s, key, paid, k, user, n);
            LedgerInv(t) &&
            LedgerGap(id, t) == LedgerGap(id, s) +
              if id == paid.campaign && id in s.campaigns && key in s.contributions
              then s.contributions[key].amount else 0
  {
    if key in s.contributions {
      SameKeySameCampaign(key, s.contributions[key], paid);
    }
    RecordsAfterSave(s.contributions, key, paid, id);
  }

  /** An event that saves at most campaign `key` moves at most that campaign's ledger. */
  lemma LedgerSave(id: JsString, s: Store, t: Store, key: JsString)
    requires t.contributions == s.contributions
    requires t.campaigns == s.campaigns || (key in t.campaigns && t.campaigns == s.campaigns[key := t.campaigns[key]])
    ensures Filed(s) ==> Filed(t)
    ensures LedgerGap(id, t) == if id == key && key in t.campaigns then
                                  t.campaigns[key].raised - Total(Records(s.contributions, key))
                                else LedgerGap(id, s)
  {
  }

  lemma LedgerCampaignEvent(id: JsString, s: Store, e: Event)
    requires LedgerInv(s)
    requires e.CampaignCreated? || e.CampaignStateChanged? || e.CampaignFinalized?
    ensures LedgerInv(Step(s, e))
    ensures LedgerGap(id, Step(s, e)) == LedgerGap(id, s) + LedgerSlip(id, s, e)
  {
    LedgerSave(id, s, Step(s, e), ToHex(e.campaignId));
  }

  lemma LedgerStep(id: JsString, s: Store, e: Event)
    requires LedgerInv(s)
    ensures LedgerInv(Step(s, e))
    ensures LedgerGap(id, Step(s, e)) == LedgerGap(id, s) + LedgerSlip(id, s, e)
  {
    if !TouchesCampaigns(e) {
      CampaignFrame(s, e);
    } else if e.ContributionMade? {
      PaidIsFiled(e);
      LedgerPayment(id, s, PaidKey(e), Paid(e), 1, UserKey(e.contributor), 1);
    } else if e.ContributionRefunded? {
      PaidIsFiled(e);
      LedgerPayment(id, s, PaidKey(e), Paid(e), 0, UserKey(e.contributor), 0);
    } else {
      LedgerCampaignEvent(id, s, e);
    }
  }

  lemma LedgerAccounts(id: JsString)
    ensures Accounts(Step, EMPTY, LedgerInv, s => LedgerGap(id, s), (s, e) => LedgerSlip(id, s, e))
  {
    forall s, e | LedgerInv(s)
      ensures LedgerInv(Step(s, e)) && LedgerGap(id, Step(s, e)) == LedgerGap(id, s) + LedgerSlip(id, s, e)
    {
      LedgerStep(id, s, e);
    }
  }

  /** For every run and campaign: raised = the sum of its records + what the run let slip for it. */
  lemma LedgerLaw(log: seq<Event>, id: JsString)
    requires id in Replay(log).campaigns
    ensures Replay(log).campaigns[id].raised ==
            Total(Records(Replay(log).contributions, id)) +
            Drift(Step, EMPTY, log, (s, e) => LedgerSlip(id, s, e))
  {
    LedgerAccounts(id);
    DriftLaw(Step, EMPTY, log, LedgerInv, s => LedgerGap(id, s), (s, e) => LedgerSlip(id, s, e));
  }

  /** Every campaign's `raised` is the signed sum of its contribution records. */
  ghost predicate Balanced(s: Store)
  {
    forall id :: id in s.campaigns ==> s.campaigns[id].raised == Total(Records(s.contributions, id))
  }

  /** What has to be true just before an event for it to leave every ledger balanced. */
  ghost predicate KeepsLedger(s: Store, e: Event)
  {
    TouchesCampaigns(e) ==>
      var id := ToHex(e.campaignId);
      if e.CampaignCreated? then
        (if id in s.campaigns then s.campaigns[id].raised == 0 else Total(Records(s.contributions, id)) == 0)
      else id in s.campaigns ==>
        && (e.CampaignFinalized? ==> e.totalRaised == s.campaigns[id].raised)
        && (e.ContributionMade? || e.ContributionRefunded? ==>
              PaidKey(e) in s.contributions ==> s.contributions[PaidKey(e)].amount == 0)
  }

  /** The ledgers are balanced after every event exactly when every event keeps them. */
  lemma BalancedIff(log: seq<Event>)
    ensures (forall n :: 0 <= n <= |log| ==> Balanced(Replay(log[..n])))
            <==> (forall n :: 0 <= n < |log| ==> KeepsLedger(Replay(log[..n]), log[n]))
  {
    forall s, e | LedgerInv(s)
      ensures LedgerInv(Step(s, e))
      ensures Balanced(s) ==> (Balanced(Step(s, e)) <==> KeepsLedger(s, e))
    {
      BalancedStep(s, e);
    }
    StaysIff(Step, EMPTY, log, LedgerInv, Balanced, KeepsLedger);
  }

  lemma BalancedStep(s: Store, e: Event)
    requires LedgerInv(s)
    ensures LedgerInv(Step(s, e))
    ensures Balanced(s) ==> (Balanced(Step(s, e)) <==> KeepsLedger(s, e))
  {
    BalancedIsNoGap(s);
    BalancedIsNoGap(Step(s, e));
    forall id: JsString
      ensures LedgerInv(Step(s, e)) && LedgerGap(id, Step(s, e)) == LedgerGap(id, s) + LedgerSlip(id, s, e)
    {
      LedgerStep(id, s, e);
    }
    if TouchesCampaigns(e) {
      assert KeepsLedger(s, e) <==> LedgerSlip(ToHex(e.campaignId), s, e) == 0;
      assert forall id: JsString :: id != ToHex(e.campaignId) ==> LedgerSlip(id, s, e) == 0;
    } else {
      assert forall id: JsString :: LedgerSlip(id, s, e) == 0;
    }
  }

  lemma BalancedIsNoGap(s: Store)
    ensures Balanced(s) <==> (forall id: JsString :: LedgerGap(id, s) == 0)
  {
    if forall id: JsString :: LedgerGap(id, s) == 0 {
      forall id | id in s.campaigns
        ensures s.campaigns[id].raised == Total(Records(s.contributions, id))
      {
        assert LedgerGap(id, s) == 0;
      }
    }
  }

  // ----- the same, from the log alone -----

  /** Where a stored record comes from. */
  lemma {:induction false} RecordOrigin(log: seq<Event>, key: JsString) returns (i: nat)
    requires key in Replay(log).contributions
    ensures i < |log| && Pays(log[i]) && PaidKey(log[i]) == key
    ensures Paid(log[i]) == Replay(log).contributions[key]
  {
    var s, e := Replay(Before(log)), Last(log);
    if Pays(e) && PaidKey(e) == key {
      i := |log| - 1;
    } else {
      if !TouchesCampaigns(e) {
        CampaignFrame(s, e);
      }
      i := RecordOrigin(Before(log), key);
    }
  }

  lemma {:induction false} CampaignOrigin(log: seq<Event>, id: JsString) returns (i: nat)
    requires id in Replay(log).campaigns
    ensures i < |log| && log[i].CampaignCreated? && ToHex(log[i].campaignId) == id
  {
    var s, e := Replay(Before(log)), Last(log);
    if e.CampaignCreated? && ToHex(e.campaignId) == id {
      i := |log| - 1;
    } else {
      if !TouchesCampaigns(e) {
        CampaignFrame(s, e);
      }
      i := CampaignOrigin(Before(log), id);
    }
  }

  /** A campaign is created once, before any payment to it. */
  ghost predicate CreatedOnceFirst(log: seq<Event>)
  {
    forall i, j :: 0 <= i < j < |log| && log[j].CampaignCreated? && (log[i].CampaignCreated? || Pays(log[i])) ==>
      log[i].campaignId != log[j].campaignId
  }

  /** No two contributions, and no two refunds, share campaign, contributor and transaction. */
  ghost predicate PaymentsDistinct(log: seq<Event>)
  {
    forall i, j :: 0 <= i < j < |log| && Pays(log[i]) && Pays(log[j])
                   && log[i].ContributionMade? == log[j].ContributionMade? ==>
      (log[i].campaignId, log[i].contributor, log[i].transaction)
      != (log[j].campaignId, log[j].contributor, log[j].transaction)
  }

  ghost predicate EverCreated(log: seq<Event>, id: Bytes)
  {
    exists i :: 0 <= i < |log| && log[i].CampaignCreated? && log[i].campaignId == id
  }

  /** What the log says a campaign has raised: nothing at its latest creation or the amount its latest finalisation
      reports, whichever is later, plus contributions and less refunds since. */
  ghost function RaisedIn(log: seq<Event>, id: Bytes): int
  {
    if log == [] then 0 else
      var pre, e := Before(log), Last(log);
      if !TouchesCampaigns(e) || e.campaignId != id then RaisedIn(pre, id)
      else if e.CampaignCreated? then 0
      else if !EverCreated(pre, id) then 0
      else if e.CampaignFinalized? then e.totalRaised
      else if e.ContributionMade? then RaisedIn(pre, id) + e.amount
      else if e.ContributionRefunded? then RaisedIn(pre, id) - e.amount
      else RaisedIn(pre, id)
  }

  lemma CampaignStoredIff(log: seq<Event>, id: Bytes)
    ensures ToHex(id) in Replay(log).campaigns <==> EverCreated(log, id)
  {
    if ToHex(id) in Replay(log).campaigns {
      var i := CampaignOrigin(log, ToHex(id));
      ToHexInjective(log[i].campaignId, id);
    }
    if EverCreated(log, id) {
      var i :| 0 <= i < |log| && log[i].CampaignCreated? && log[i].campaignId == id;
      CampaignStored(log, i);
    }
  }

  /** What one event makes of a stored campaign's amount. */
  lemma RaisedAfter(s: Store, e: Event, id: Bytes)
    requires ToHex(id) in Step(s, e).campaigns
    ensures (e.CampaignCreated? && e.campaignId == id) || ToHex(id) in s.campaigns
    ensures Step(s, e).campaigns[ToHex(id)].raised ==
            if e.CampaignCreated? && e.campaignId == id then 0
            else if TouchesCampaigns(e) && e.campaignId == id && e.CampaignFinalized? then e.totalRaised
            else if e.ContributionMade? && e.campaignId == id then s.campaigns[ToHex(id)].raised + e.amount
            else if e.ContributionRefunded? && e.campaignId == id then s.campaigns[ToHex(id)].raised - e.amount
            else s.campaigns[ToHex(id)].raised
  {
    if !TouchesCampaigns(e) {
      CampaignFrame(s, e);
    } else {
      if ToHex(e.campaignId) == ToHex(id) {
        ToHexInjective(e.campaignId, id);
      }
      if !Pays(e) {
        CampaignSaved(s, e);
      }
    }
  }

  /** For every run: a campaign is stored exactly when it was created, and its `raised` is what the log says. */
  lemma {:induction false} RaisedFromLog(log: seq<Event>, id: Bytes)
    ensures ToHex(id) in Replay(log).campaigns <==> EverCreated(log, id)
    ensures ToHex(id) in Replay(log).campaigns ==> Replay(log).campaigns[ToHex(id)].raised == RaisedIn(log, id)
  {
    CampaignStoredIff(log, id);
    if log != [] && ToHex(id) in Replay(log).campaigns {
      RaisedFromLog(Before(log), id);
      RaisedAfter(Replay(Before(log)), Last(log), id);
    }
  }

  /** Each finalisation of a created campaign reports what the log says it has raised. */
  ghost predicate FinalsReportIndexed(log: seq<Event>)
  {
    forall n :: 0 <= n < |log| && log[n].CampaignFinalized? && EverCreated(log[..n], log[n].campaignId) ==>
      log[n].totalRaised == RaisedIn(log[..n], log[n].campaignId)
  }

  lemma SamePayment(a: Event, b: Event)
    requires Pays(a) && Pays(b) && PaidKey(a) == PaidKey(b)
    ensures a.ContributionMade? == b.ContributionMade?
    ensures (a.campaignId, a.contributor, a.transaction) == (b.campaignId, b.contributor, b.transaction)
  {
    PaidIsFiled(a);
    PaidIsFiled(b);
    SameKeySameCampaign(PaidKey(a), Paid(a), Paid(b));
    ToHexInjective(a.campaignId, b.campaignId);
    ToHexInjective(a.contributor, b.contributor);
    ToHexInjective(a.transaction, b.transaction);
    var c, u, t := ToHex(a.campaignId), ToHex(a.contributor), ToHex(a.transaction);
    RefundIsNotContribution(c, u, t, c, u, t);
  }

  lemma CreationKeepsLedger(log: seq<Event>, n: nat)
    requires CreatedOnceFirst(log) && n < |log| && log[n].CampaignCreated?
    ensures KeepsLedger(Replay(log[..n]), log[n])
  {
    var s, id := Replay(log[..n]), ToHex(log[n].campaignId);
    if id in s.campaigns {
      var i := CampaignOrigin(log[..n], id);
      ToHexInjective(log[i].campaignId, log[n].campaignId);
    }
    forall k | k in Records(s.contributions, id)
      ensures false
    {
      var i := RecordOrigin(log[..n], k);
      ToHexInjective(log[i].campaignId, log[n].campaignId);
    }
  }

  /** A run that creates each campaign once and first, repeats no payment and finalises honestly stays balanced. */
  lemma LedgerFromLog(log: seq<Event>)
    requires CreatedOnceFirst(log) && PaymentsDistinct(log) && FinalsReportIndexed(log)
    ensures Balanced(Replay(log))
  {
    forall n | 0 <= n < |log|
      ensures KeepsLedger(Replay(log[..n]), log[n])
    {
      if log[n].CampaignCreated? {
        CreationKeepsLedger(log, n);
      } else if Pays(log[n]) && PaidKey(log[n]) in Replay(log[..n]).contributions {
        var i := RecordOrigin(log[..n], PaidKey(log[n]));
        SamePayment(log[i], log[n]);
      } else if log[n].CampaignFinalized? {
        RaisedFromLog(log[..n], log[n].campaignId);
      }
    }
    BalancedIff(log);
    assert log[..|log|] == log;
  }

  // ----- activeCampaigns against the campaigns that are ACTIVE -----

  ghost function ActiveIds(campaigns: map<JsString, Campaign>): set<JsString>
  {
    set id | id in campaigns && campaigns[id].state == FlowState.ACTIVE
  }

  ghost predicate IsActive(s: Store, id: JsString)
  {
    id in s.campaigns && s.campaigns[id].state == FlowState.ACTIVE
  }

  ghost function ActiveGap(s: Store): int
  {
    StatsOf(s.stats).activeCampaigns - |ActiveIds(s.campaigns)|
  }

  /** A creation counts a CREATED campaign, twice over if it replaces an ACTIVE one;
      a finalisation uncounts a campaign whether or not it was ACTIVE. */
  ghost function ActiveSlip(s: Store, e: Event): int
  {
    if e.CampaignCreated? then
      (if IsActive(s, ToHex(e.campaignId)) then 2 else 1)
    else if e.CampaignFinalized? && ToHex(e.campaignId) in s.campaigns && !IsActive(s, ToHex(e.campaignId)) then -1
    else 0
  }

  lemma ActiveAfterSave(campaigns: map<JsString, Campaign>, id: JsString, c: Campaign)
    ensures |ActiveIds(campaigns[id := c])| == |ActiveIds(campaigns)| +
              ActiveShift(id in campaigns && campaigns[id].state == FlowState.ACTIVE, c.state == FlowState.ACTIVE)
  {
    var was, now := ActiveIds(campaigns), ActiveIds(campaigns[id := c]);
    if c.state == FlowState.ACTIVE {
      assert now == was + {id};
    } else {
      assert now == was - {id};
    }
  }

  lemma ActiveStep(s: Store, e: Event)
    requires CampaignsHaveStats(s)
    ensures CampaignsHaveStats(Step(s, e))
    ensures ActiveGap(Step(s, e)) == ActiveGap(s) + ActiveSlip(s, e)
  {
    if !TouchesCampaigns(e) {
      CampaignFrame(s, e);
    } else {
      var id, t := ToHex(e.campaignId), Step(s, e);
      if id in t.campaigns {
        ActiveAfterSave(s.campaigns, id, t.campaigns[id]);
        assert t.campaigns == s.campaigns[id := t.campaigns[id]];
      }
    }
  }

  lemma ActiveAccounts()
    ensures Accounts(Step, EMPTY, CampaignsHaveStats, ActiveGap, ActiveSlip)
  {
    assert ActiveIds(EMPTY.campaigns) == {};
    forall s, e | CampaignsHaveStats(s)
      ensures CampaignsHaveStats(Step(s, e)) && ActiveGap(Step(s, e)) == ActiveGap(s) + ActiveSlip(s, e)
    {
      ActiveStep(s, e);
    }
  }

  /** For every run: activeCampaigns = the number of ACTIVE campaigns + what creations and finalisations let slip. */
  lemma ActiveCampaignsLaw(log: seq<Event>)
    ensures StatsOf(Replay(log).stats).activeCampaigns ==
            |ActiveIds(Replay(log).campaigns)| + Drift(Step, EMPTY, log, ActiveSlip)
  {
    ActiveAccounts();
    DriftLaw(Step, EMPTY, log, CampaignsHaveStats, ActiveGap, ActiveSlip);
  }

  ghost predicate ActiveAgrees(s: Store)
  {
    StatsOf(s.stats).activeCampaigns == |ActiveIds(s.campaigns)|
  }

  /** Campaigns that were created and have not been finalised since. */
  ghost function Awaiting(log: seq<Event>): set<Bytes>
  {
    if log == [] then {}
    else if Last(log).CampaignCreated? then Awaiting(Before(log)) + {Last(log).campaignId}
    else if Last(log).CampaignFinalized? then Awaiting(Before(log)) - {Last(log).campaignId}
    else Awaiting(Before(log))
  }

  /** A campaign is finalised at most once after each creation. */
  ghost predicate FinalisedOnce(log: seq<Event>)
  {
    forall n :: 0 <= n < |log| && log[n].CampaignFinalized? && EverCreated(log[..n], log[n].campaignId) ==>
      log[n].campaignId in Awaiting(log[..n])
  }

  lemma {:induction false} DriftCoversAwaiting(log: seq<Event>)
    requires FinalisedOnce(log)
    ensures Drift(Step, EMPTY, log, ActiveSlip) >= |Awaiting(log)|
  {
    if log != [] {
      var pre, e := Before(log), Last(log);
      assert forall n :: 0 <= n < |pre| ==> pre[..n] == log[..n];
      DriftCoversAwaiting(pre);
      if e.CampaignFinalized? && ToHex(e.campaignId) in Replay(pre).campaigns {
        var i := CampaignOrigin(pre, ToHex(e.campaignId));
        ToHexInjective(pre[i].campaignId, e.campaignId);
        assert log[..|log| - 1] == pre;
        assert e.campaignId in Awaiting(pre);
      }
    }
  }

  /** If no campaign is finalised twice in a row, the counter never falls below the ACTIVE campaigns. */
  lemma NeverUndercountsCampaigns(log: seq<Event>)
    requires FinalisedOnce(log)
    ensures StatsOf(Replay(log).stats).activeCampaigns >= |ActiveIds(Replay(log).campaigns)|
  {
    ActiveCampaignsLaw(log);
    DriftCoversAwaiting(log);
  }

  /** The counter equals the number of ACTIVE campaigns throughout a run only if no campaign is ever created. */
  lemma ActiveAgreesIff(log: seq<Event>)
    ensures (forall n :: 0 <= n <= |log| ==> ActiveAgrees(Replay(log[..n])))
            <==> (forall n :: 0 <= n < |log| ==> !log[n].CampaignCreated?)
  {
    ActiveAccounts();
    if forall n :: 0 <= n < |log| ==> !log[n].CampaignCreated? {
      forall n | 0 <= n <= |log|
        ensures ActiveAgrees(Replay(log[..n]))
      {
        NoCreationNoCampaign(log[..n]);
      }
    } else {
      var n :| 0 <= n < |log| && log[n].CampaignCreated?;
      DriftLaw(Step, EMPTY, log[..n], CampaignsHaveStats, ActiveGap, ActiveSlip);
      ActiveStep(Replay(log[..n]), log[n]);
      assert Before(log[..n + 1]) == log[..n] && Last(log[..n + 1]) == log[n];
    }
  }

  lemma NoCreationNoCampaign(log: seq<Event>)
    requires forall n :: 0 <= n < |log| ==> !log[n].CampaignCreated?
    ensures ActiveAgrees(Replay(log))
  {
    ActiveCampaignsLaw(log);
    forall n | 0 <= n < |log|
      ensures ActiveSlip(Replay(log[..n]), log[n]) == 0
    {
      if log[n].CampaignFinalized? && ToHex(log[n].campaignId) in Replay(log[..n]).campaigns {
        var i := CampaignOrigin(log[..n], ToHex(log[n].campaignId));
      }
    }
    DriftNonNegative(Step, EMPTY, log, ActiveSlip);
  }

  // ----- totalCampaigns -----

  ghost function CampaignGap(s: Store): int
  {
    StatsOf(s.stats).totalCampaigns - |s.campaigns.Keys|
  }

  ghost function CampaignSlip(s: Store, e: Event): int
  {
    if e.CampaignCreated? && ToHex(e.campaignId) in s.campaigns then 1 else 0
  }

  /** Campaigns are created and never removed. */
  lemma CampaignKeys(s: Store, e: Event)
    ensures Step(s, e).campaigns.Keys ==
            if e.CampaignCreated? then s.campaigns.Keys + {ToHex(e.campaignId)} else s.campaigns.Keys
  {
    if !TouchesCampaigns(e) {
      CampaignFrame(s, e);
    }
  }

  lemma CampaignStep(s: Store, e: Event)
    ensures CampaignGap(Step(s, e)) == CampaignGap(s) + CampaignSlip(s, e)
  {
    CampaignKeys(s, e);
    if e.CampaignCreated? {
      SetSizes(s.campaigns.Keys, ToHex(e.campaignId));
    }
  }

  ghost predicate CreatedOnce(log: seq<Event>)
  {
    forall i, j :: 0 <= i < j < |log| && log[i].CampaignCreated? && log[j].CampaignCreated? ==>
      log[i].campaignId != log[j].campaignId
  }

  lemma {:induction false} CampaignStored(log: seq<Event>, i: nat)
    requires i < |log| && log[i].CampaignCreated?
    ensures ToHex(log[i].campaignId) in Replay(log).campaigns
  {
    CampaignKeys(Replay(Before(log)), Last(log));
    if i < |log| - 1 {
      CampaignStored(Before(log), i);
    }
  }

  lemma NoneCreatedAgain(log: seq<Event>)
    ensures CreatedOnce(log) <==> NothingSlips(Step, EMPTY, log, CampaignSlip)
  {
    forall n | 0 <= n < |log| && log[n].CampaignCreated?
      ensures CampaignSlip(Replay(log[..n]), log[n]) == 0 <==>
              forall i :: 0 <= i < n && log[i].CampaignCreated? ==> log[i].campaignId != log[n].campaignId
    {
      if ToHex(log[n].campaignId) in Replay(log[..n]).campaigns {
        var i := CampaignOrigin(log[..n], ToHex(log[n].campaignId));
        ToHexInjective(log[i].campaignId, log[n].campaignId);
      } else {
        forall i | 0 <= i < n && log[i].CampaignCreated?
          ensures log[i].campaignId != log[n].campaignId
        {
          assert log[..n][i] == log[i];
          CampaignStored(log[..n], i);
        }
      }
    }
  }

  /** For every run: totalCampaigns is at least the number of campaigns stored, and exactly that number if and only
      if no campaign is created twice. */
  lemma TotalCampaignsLaw(log: seq<Event>)
    ensures StatsOf(Replay(log).stats).totalCampaigns >= |Replay(log).campaigns|
    ensures StatsOf(Replay(log).stats).totalCampaigns == |Replay(log).campaigns| <==> CreatedOnce(log)
  {
    assert EMPTY.campaigns.Keys == {};
    forall s, e
      ensures CampaignGap(Step(s, e)) == CampaignGap(s) + CampaignSlip(s, e)
    {
      CampaignStep(s, e);
    }
    DriftLaw(Step, EMPTY, log, Any, CampaignGap, CampaignSlip);
    DriftNonNegative(Step, EMPTY, log, CampaignSlip);
    NoneCreatedAgain(log);
    assert |Replay(log).campaigns| == |Replay(log).campaigns.Keys|;
  }
}
