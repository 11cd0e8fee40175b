/**
 * What flow.ts stores for payments, told from the log alone: the global `totalRaised` and every Contribution record.
 */
module PaymentLaws {
  import opened Text
  import opened Runs
  import opened SubgraphStore
  import opened FlowLaws

  // ----- totalRaised -----

  /** Contributed minus refunded amounts, over payments to campaigns created before them. */
  ghost function Collected(log: seq<Event>): int
  {
    if log == [] then 0 else
      var pre, e := Before(log), Last(log);
      if e.ContributionMade? && EverCreated(pre, e.campaignId) then Collected(pre) + e.amount
      else if e.ContributionRefunded? && EverCreated(pre, e.campaignId) then Collected(pre) - e.amount
      else Collected(pre)
  }

  /** A payment to a stored campaign moves the global amount by what is paid, a refund being negative. */
  lemma TotalRaisedAfter(s: Store, e: Event)
    requires CampaignsHaveStats(s)
    ensures StatsOf(Step(s, e).stats).totalRaised == StatsOf(s.stats).totalRaised +
              (if e.ContributionMade? && ToHex(e.campaignId) in s.campaigns then e.amount
               else if e.ContributionRefunded? && ToHex(e.campaignId) in s.campaigns then -e.amount
               else 0)
  {
    if !TouchesCampaigns(e) {
      CampaignFrame(s, e);
    } else if !Pays(e) {
      CampaignSaved(s, e);
    }
  }

  /** For every run: totalRaised is the sum of contributed minus refunded amounts of created campaigns. */
  lemma {:induction false} TotalRaisedFromLog(log: seq<Event>)
    ensures CampaignsHaveStats(Replay(log)) && StatsOf(Replay(log).stats).totalRaised == Collected(log)
  {
    if log != [] {
      var pre, e := Before(log), Last(log);
      TotalRaisedFromLog(pre);
      TotalRaisedAfter(Replay(pre), e);
      RaisedStep(Replay(pre), e);
      if Pays(e) {
        CampaignStoredIff(pre, e.campaignId);
      }
    }
  }

  // ----- the records -----

  ghost predicate Contributes(e: Event, campaign: Bytes, contributor: Bytes, transaction: Bytes)
  {
    e.ContributionMade? && (e.campaignId, e.contributor, e.transaction) == (campaign, contributor, transaction)
  }

  ghost predicate Refunds(e: Event, campaign: Bytes, contributor: Bytes, transaction: Bytes)
  {
    e.ContributionRefunded? && (e.campaignId, e.contributor, e.transaction) == (campaign, contributor, transaction)
  }

  /** Only payments write records, each under its own id. */
  lemma RecordsAfter(s: Store, e: Event)
    ensures Step(s, e).contributions == if Pays(e) then s.contributions[PaidKey(e) := Paid(e)] else s.contributions
  {
    if !TouchesCampaigns(e) {
      CampaignFrame(s, e);
    }
  }

  /** The latest payment under an id decides its record. */
  lemma {:induction false} RecordStays(log: seq<Event>, i: nat)
    requires i < |log| && Pays(log[i])
    requires forall j :: i < j < |log| && Pays(log[j]) ==> PaidKey(log[j]) != PaidKey(log[i])
    ensures PaidKey(log[i]) in Replay(log).contributions && Replay(log).contributions[PaidKey(log[i])] == Paid(log[i])
  {
    Shorten(log);
    RecordsAfter(Replay(Before(log)), Last(log));
    if i < |log| - 1 {
      RecordStays(Before(log), i);
    }
  }

  /** For every run: under the id of a contribution stands the amount of the latest contribution with these parts. */
  lemma ContributionRecordLaw(log: seq<Event>, i: nat, c: Bytes, u: Bytes, t: Bytes)
    requires Latest(log, i, e => Contributes(e, c, u, t))
    ensures var key, records := ContributionKey(ToHex(c), ToHex(u), ToHex(t)), Replay(log).contributions;
            key in records && records[key] == Contribution(ToHex(c), ToHex(u), ToHex(t), log[i].amount)
  {
    forall j | i < j < |log| && Pays(log[j]) && PaidKey(log[j]) == PaidKey(log[i])
      ensures false
    {
      SamePayment(log[i], log[j]);
    }
    RecordStays(log, i);
  }

  /** For every run: under the id of a refund stands the negated amount of the latest refund with these parts. */
  lemma RefundRecordLaw(log: seq<Event>, i: nat, c: Bytes, u: Bytes, t: Bytes)
    requires Latest(log, i, e => Refunds(e, c, u, t))
    ensures var key, records := RefundKey(ToHex(c), ToHex(u), ToHex(t)), Replay(log).contributions;
            key in records && records[key] == Contribution(ToHex(c), ToHex(u), ToHex(t), -log[i].amount)
  {
    forall j | i < j < |log| && Pays(log[j]) && PaidKey(log[j]) == PaidKey(log[i])
      ensures false
    {
      SamePayment(log[i], log[j]);
    }
    RecordStays(log, i);
  }

  /** The parts of some payment make up the id. */
  ghost predicate PaymentId(e: Event, key: JsString)
  {
    || (e.ContributionMade? && key == ContributionKey(ToHex(e.campaignId), ToHex(e.contributor), ToHex(e.transaction)))
    || (e.ContributionRefunded? && key == RefundKey(ToHex(e.campaignId), ToHex(e.contributor), ToHex(e.transaction)))
  }

  /** For every run: a record is stored under an id exactly if a contribution or refund of the run has that id. */
  lemma {:induction false} RecordStoredIff(log: seq<Event>, key: JsString)
    ensures key in Replay(log).contributions <==> exists i :: 0 <= i < |log| && PaymentId(log[i], key)
  {
    if log != [] {
      RecordStoredIff(Before(log), key);
      Shorten(log);
      RecordsAfter(Replay(Before(log)), Last(log));
      assert log[|log| - 1] == Last(log);
    }
  }
}
