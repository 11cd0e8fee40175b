/**
 * The stored state of a campaign, told from the log alone, and `activeCampaigns` against the campaigns that the log
 * says are ACTIVE.
 */
module CampaignStateLaws {
  import opened Text
  import opened Tally
  import opened Runs
  import opened SubgraphStore
  import opened FlowLaws

  /** The events that decide the state of a campaign. */
  ghost predicate Decides(e: Event, id: Bytes)
  {
    (e.CampaignCreated? || e.CampaignFinalized? || e.CampaignStateChanged?) && e.campaignId == id
  }

  /** `state` is what the event says: CREATED, FINALIZED, or the state with the code it carries. */
  ghost predicate Says(e: Event, state: FlowState)
    requires e.CampaignCreated? || e.CampaignFinalized? || e.CampaignStateChanged?
  {
    match e
    case CampaignCreated(_, _, _) => state == FlowState.CREATED
    case CampaignFinalized(_, _) => state == FlowState.FINALIZED
    case CampaignStateChanged(_, n) =>
      && (state == FlowState.ACTIVE <==> n == 1) && (state == FlowState.PAUSED <==> n == 2)
      && (state == FlowState.FINALIZED <==> n == 3) && (state == FlowState.CANCELLED <==> n == 4)
  }

  lemma StateSaved(s: Store, e: Event)
    requires e.CampaignCreated? || e.CampaignFinalized? || e.CampaignStateChanged?
    requires ToHex(e.campaignId) in s.campaigns || e.CampaignCreated?
    ensures ToHex(e.campaignId) in Step(s, e).campaigns && Says(e, Step(s, e).campaigns[ToHex(e.campaignId)].state)
  {
  }

  lemma StateAfter(s: Store, e: Event, id: Bytes)
    requires ToHex(id) in s.campaigns || (e.CampaignCreated? && e.campaignId == id)
    ensures var t := Step(s, e);
            && ToHex(id) in t.campaigns
            && (Decides(e, id) ==> Says(e, t.campaigns[ToHex(id)].state))
            && (!Decides(e, id) ==> t.campaigns[ToHex(id)].state == s.campaigns[ToHex(id)].state)
  {
    if !TouchesCampaigns(e) {
      CampaignFrame(s, e);
    } else {
      if ToHex(e.campaignId) == ToHex(id) {
        ToHexInjective(e.campaignId, id);
      }
      if Pays(e) {
        PaymentSaved(s, e);
      } else {
        CampaignSaved(s, e);
        if e.campaignId == id {
          StateSaved(s, e);
        }
      }
    }
  }

  /** For every run: the state of a created campaign is what its latest creation, finalisation or state change says. */
  lemma {:induction false} StateFromLog(log: seq<Event>, i: nat, id: Bytes)
    requires Latest(log, i, e => Decides(e, id)) && EverCreated(log, id)
    ensures ToHex(id) in Replay(log).campaigns && Says(log[i], Replay(log).campaigns[ToHex(id)].state)
  {
    var pre, e := Before(log), Last(log);
    LatestStep(log, i, e => Decides(e, id));
    CampaignStoredIff(pre, id);
    EverCreatedStep(log, id);
    if i < |log| - 1 {
      StateFromLog(pre, i, id);
    }
    StateAfter(Replay(pre), e, id);
  }

  lemma EverCreatedStep(log: seq<Event>, id: Bytes)
    requires log != []
    ensures EverCreated(log, id) <==>
            EverCreated(Before(log), id) || (Last(log).CampaignCreated? && Last(log).campaignId == id)
  {
    Shorten(log);
    assert log[|log| - 1] == Last(log);
  }

  // ----- activeCampaigns -----

  /** The campaigns whose latest creation, finalisation or state change is a change to state 1. */
  ghost function ActiveIn(log: seq<Event>): set<Bytes>
  {
    set i | 0 <= i < |log| && log[i].CampaignStateChanged? && log[i].newState == 1
            && Latest(log, i, e => Decides(e, log[i].campaignId)) && EverCreated(log, log[i].campaignId)
      :: log[i].campaignId
  }

  lemma {:induction false} LatestDecision(log: seq<Event>, id: Bytes) returns (i: nat)
    requires EverCreated(log, id)
    ensures Latest(log, i, e => Decides(e, id))
  {
    if Decides(Last(log), id) {
      i := |log| - 1;
    } else {
      EverCreatedStep(log, id);
      i := LatestDecision(Before(log), id);
      Shorten(log);
    }
  }

  lemma ActiveInIff(log: seq<Event>, i: nat, id: Bytes)
    requires EverCreated(log, id) && Latest(log, i, e => Decides(e, id))
    ensures id in ActiveIn(log) <==> log[i].CampaignStateChanged? && log[i].newState == 1
  {
    if id in ActiveIn(log) {
      var j :| 0 <= j < |log| && log[j].CampaignStateChanged? && log[j].newState == 1
               && Latest(log, j, e => Decides(e, log[j].campaignId)) && log[j].campaignId == id;
      assert Decides(log[j], id) && Decides(log[i], id);
      assert i == j;
    }
    if log[i].CampaignStateChanged? && log[i].newState == 1 {
      assert Decides(log[i], id);
      assert Latest(log, i, e => Decides(e, log[i].campaignId));
    }
  }

  lemma OnlyCreatedActive(log: seq<Event>, id: Bytes)
    requires id in ActiveIn(log)
    ensures EverCreated(log, id)
  {
  }

  /** For every run: the campaigns stored as ACTIVE are those whose latest decision is a change to state 1. */
  lemma ActiveFromLog(log: seq<Event>, id: Bytes)
    ensures IsActive(Replay(log), ToHex(id)) <==> id in ActiveIn(log)
  {
    CampaignStoredIff(log, id);
    if EverCreated(log, id) {
      var i := LatestDecision(log, id);
      StateFromLog(log, i, id);
      ActiveInIff(log, i, id);
    } else if id in ActiveIn(log) {
      OnlyCreatedActive(log, id);
    }
  }

  lemma {:induction false} SameSize(a: set<Bytes>, b: set<JsString>)
    requires forall x :: x in a ==> ToHex(x) in b
    requires forall y :: y in b ==> exists x :: x in a && ToHex(x) == y
    ensures |a| == |b|
    decreases |b|
  {
    if b == {} {
      if x :| x in a {
        assert ToHex(x) in b;
      }
    } else {
      var y :| y in b;
      var x :| x in a && ToHex(x) == y;
      forall z | z in a && z != x
        ensures ToHex(z) in b - {y}
      {
        if ToHex(z) == ToHex(x) {
          ToHexInjective(z, x);
        }
      }
      forall w | w in b - {y}
        ensures exists z :: z in a - {x} && ToHex(z) == w
      {
        var z :| z in a && ToHex(z) == w;
        assert z in a - {x};
      }
      SameSize(a - {x}, b - {y});
    }
  }

  lemma ActiveCount(log: seq<Event>)
    ensures |ActiveIds(Replay(log).campaigns)| == |ActiveIn(log)|
  {
    var stored := ActiveIds(Replay(log).campaigns);
    forall x | x in ActiveIn(log)
      ensures ToHex(x) in stored
    {
      ActiveFromLog(log, x);
    }
    forall y | y in stored
      ensures exists x :: x in ActiveIn(log) && ToHex(x) == y
    {
      var i := CampaignOrigin(log, y);
      ActiveFromLog(log, log[i].campaignId);
    }
    SameSize(ActiveIn(log), stored);
  }

  /** Creations, one more for each that replaces an ACTIVE campaign, less finalisations of campaigns not ACTIVE. */
  ghost function Miscounted(log: seq<Event>): int
  {
    if log == [] then 0 else
      var pre, e := Before(log), Last(log);
      if e.CampaignCreated? then Miscounted(pre) + 1 + One(e.campaignId in ActiveIn(pre))
      else if e.CampaignFinalized? && EverCreated(pre, e.campaignId) && e.campaignId !in ActiveIn(pre) then
        Miscounted(pre) - 1
      else Miscounted(pre)
  }

  lemma {:induction false} MiscountedIsDrift(log: seq<Event>)
    ensures Miscounted(log) == Drift(Step, EMPTY, log, ActiveSlip)
  {
    if log != [] {
      var pre, e := Before(log), Last(log);
      MiscountedIsDrift(pre);
      if e.CampaignCreated? || e.CampaignFinalized? {
        ActiveFromLog(pre, e.campaignId);
        CampaignStoredIff(pre, e.campaignId);
      }
    }
  }

  /** For every run: activeCampaigns = campaigns that the log says are ACTIVE + what the log says was miscounted. */
  lemma ActiveCampaignsFromLog(log: seq<Event>)
    ensures StatsOf(Replay(log).stats).activeCampaigns == |ActiveIn(log)| + Miscounted(log)
  {
    ActiveCampaignsLaw(log);
    ActiveCount(log);
    MiscountedIsDrift(log);
  }

  // ----- the other fields a creation sets -----

  ghost predicate Creates(e: Event, id: Bytes)
  {
    e.CampaignCreated? && e.campaignId == id
  }

  lemma OwnerAfter(s: Store, e: Event, id: Bytes)
    requires ToHex(id) in s.campaigns || Creates(e, id)
    ensures var t := Step(s, e);
            && ToHex(id) in t.campaigns
            && (Creates(e, id) ==> t.campaigns[ToHex(id)].organization == IdString(e.organizationId)
                                   && t.campaigns[ToHex(id)].creator == ToHex(e.creator))
            && (!Creates(e, id) ==> t.campaigns[ToHex(id)].organization == s.campaigns[ToHex(id)].organization
                                    && t.campaigns[ToHex(id)].creator == s.campaigns[ToHex(id)].creator)
  {
    if !TouchesCampaigns(e) {
      CampaignFrame(s, e);
    } else {
      if ToHex(e.campaignId) == ToHex(id) {
        ToHexInjective(e.campaignId, id);
      }
      if Pays(e) {
        PaymentSaved(s, e);
      } else {
        CampaignSaved(s, e);
      }
    }
  }

  /** For every run: a campaign belongs to the organization and creator of its latest creation. */
  lemma {:induction false} OwnerFromLog(log: seq<Event>, i: nat, id: Bytes)
    requires Latest(log, i, e => Creates(e, id))
    ensures var campaigns := Replay(log).campaigns;
            && ToHex(id) in campaigns && campaigns[ToHex(id)].organization == IdString(log[i].organizationId)
            && campaigns[ToHex(id)].creator == ToHex(log[i].creator)
  {
    LatestStep(log, i, e => Creates(e, id));
    if i < |log| - 1 {
      OwnerFromLog(Before(log), i, id);
    }
    OwnerAfter(Replay(Before(log)), Last(log), id);
  }
}
