/** User records and the two plain global totals of packages/subgraph, told from the log alone. */
module UserLaws {
  import opened Text
  import opened Tally
  import opened Runs
  import opened SubgraphStore

  /** The event names the address as somebody who acts. */
  ghost predicate NamesUser(e: Event, b: Bytes)
  {
    match e
    case CampaignCreated(_, _, creator) => creator == b
    case ContributionMade(_, contributor, _, _) => contributor == b
    case ContributionRefunded(_, contributor, _, _) => contributor == b
    case OrganizationCreated(_, creator, _, _) => creator == b
    case FactoryOrganizationCreated(_, creator, _) => creator == b
    case StakeWithdrawn(staker) => staker == b
    case MemberAdded(_, member) => member == b
    case VotingDelegated(_, delegator, delegatee, _, _, _) => delegator == b || delegatee == b
    case ProposalCreated(creator) => creator == b
    case _ => false
  }

  ghost predicate Founds(e: Event, b: Bytes)
  {
    (e.OrganizationCreated? || e.FactoryOrganizationCreated?) && e.creator == b
  }

  ghost predicate Gives(e: Event, b: Bytes)
  {
    e.ContributionMade? && e.contributor == b
  }

  lemma SameUser(x: Bytes, b: Bytes)
    ensures UserKey(x) == ToHex(x)
    ensures ToHex(x) == ToHex(b) <==> x == b
  {
    ToHexIsLowerCase(x);
    if ToHex(x) == ToHex(b) {
      ToHexInjective(x, b);
    }
  }

  /** The addresses an event names. */
  lemma SameUsers(e: Event, b: Bytes)
    ensures e.CampaignCreated? || Announces(e) || e.ProposalCreated? ==>
              UserKey(e.creator) == ToHex(e.creator) && (ToHex(e.creator) == ToHex(b) <==> e.creator == b)
    ensures e.ContributionMade? || e.ContributionRefunded? ==>
              UserKey(e.contributor) == ToHex(e.contributor)
              && (ToHex(e.contributor) == ToHex(b) <==> e.contributor == b)
    ensures e.StakeWithdrawn? ==>
              UserKey(e.staker) == ToHex(e.staker) && (ToHex(e.staker) == ToHex(b) <==> e.staker == b)
    ensures e.MemberAdded? ==> (ToHex(e.member) == ToHex(b) <==> e.member == b)
    ensures e.VotingDelegated? ==> (ToHex(e.delegator) == ToHex(b) <==> e.delegator == b)
    ensures e.VotingDelegated? ==> (ToHex(e.delegatee) == ToHex(b) <==> e.delegatee == b)
  {
    match e
    case CampaignCreated(_, _, x) => SameUser(x, b);
    case OrganizationCreated(_, x, _, _) => SameUser(x, b);
    case FactoryOrganizationCreated(_, x, _) => SameUser(x, b);
    case ProposalCreated(x) => SameUser(x, b);
    case ContributionMade(_, x, _, _) => SameUser(x, b);
    case ContributionRefunded(_, x, _, _) => SameUser(x, b);
    case StakeWithdrawn(x) => SameUser(x, b);
    case MemberAdded(_, x) => SameUser(x, b);
    case VotingDelegated(_, x, y, _, _, _) => SameUser(x, b); SameUser(y, b);
    case _ =>
  }

  /** How the table of users changes, event by event. */
  lemma UserTable(s: Store, e: Event)
    ensures Step(s, e).users ==
            match e
            case CampaignCreated(_, _, x) => Seen(s.users, UserKey(x))
            case ContributionMade(_, x, _, _) => Counted(s.users, UserKey(x), 0, 1)
            case ContributionRefunded(_, x, _, _) => Counted(s.users, UserKey(x), 0, 0)
            case OrganizationCreated(_, x, _, _) => Counted(s.users, UserKey(x), 1, 0)
            case FactoryOrganizationCreated(_, x, _) => Counted(s.users, UserKey(x), 1, 0)
            case StakeWithdrawn(x) => Seen(s.users, UserKey(x))
            case MemberAdded(_, x) => Seen(s.users, ToHex(x))
            case VotingDelegated(_, x, y, _, _, _) => Seen(Seen(s.users, ToHex(x)), ToHex(y))
            case ProposalCreated(x) => Seen(s.users, UserKey(x))
            case _ => s.users
  {
  }

  function Counted(users: map<JsString, User>, id: JsString, organizations: int, contributions: int)
    : map<JsString, User>
  {
    var u := UserOf(users, id);
    users[id := User(u.totalOrganizations + organizations, u.totalContributions + contributions)]
  }

  lemma UserAfter(s: Store, e: Event, b: Bytes)
    ensures ToHex(b) in Step(s, e).users <==> ToHex(b) in s.users || NamesUser(e, b)
    ensures UserOf(Step(s, e).users, ToHex(b)) ==
            User(UserOf(s.users, ToHex(b)).totalOrganizations + One(Founds(e, b)),
                 UserOf(s.users, ToHex(b)).totalContributions + One(Gives(e, b)))
  {
    UserTable(s, e);
    SameUsers(e, b);
  }

  /** For every run: a user is stored exactly if some event names the address, and counts the organizations announced
      for it as creator and the contributions it made. */
  lemma {:induction false} UserFromLog(log: seq<Event>, b: Bytes)
    ensures ToHex(b) in Replay(log).users <==> Count(log, e => NamesUser(e, b)) > 0
    ensures UserOf(Replay(log).users, ToHex(b)) == User(Count(log, e => Founds(e, b)), Count(log, e => Gives(e, b)))
  {
    if log != [] {
      UserFromLog(Before(log), b);
      UserAfter(Replay(Before(log)), Last(log), b);
    }
  }

  /** Every user id is an address. */
  lemma {:induction false} UserOrigin(log: seq<Event>, id: JsString) returns (b: Bytes)
    requires id in Replay(log).users
    ensures id == ToHex(b)
  {
    var s, e := Replay(Before(log)), Last(log);
    if id in s.users {
      b := UserOrigin(Before(log), id);
    } else {
      UserTable(s, e);
      SameUsers(e, []);
      b := match e
        case CampaignCreated(_, _, x) => x
        case OrganizationCreated(_, x, _, _) => x
        case FactoryOrganizationCreated(_, x, _) => x
        case ProposalCreated(x) => x
        case ContributionMade(_, x, _, _) => x
        case ContributionRefunded(_, x, _, _) => x
        case StakeWithdrawn(x) => x
        case MemberAdded(_, x) => x
        case VotingDelegated(_, x, y, _, _, _) => if id == ToHex(x) then x else y
        case _ => [];
    }
  }

  lemma TotalsAfter(s: Store, e: Event)
    ensures StatsOf(Step(s, e).stats).totalOrganizations ==
            StatsOf(s.stats).totalOrganizations + One(e.OrganizationCreated? || e.FactoryOrganizationCreated?)
    ensures StatsOf(Step(s, e).stats).totalCampaigns == StatsOf(s.stats).totalCampaigns + One(e.CampaignCreated?)
  {
  }

  /** For every run: totalOrganizations is the number of announcements, totalCampaigns the number of creations. */
  lemma {:induction false} TotalsFromLog(log: seq<Event>)
    ensures StatsOf(Replay(log).stats).totalOrganizations ==
            Count(log, (e: Event) => e.OrganizationCreated? || e.FactoryOrganizationCreated?)
    ensures StatsOf(Replay(log).stats).totalCampaigns == Count(log, (e: Event) => e.CampaignCreated?)
  {
    if log != [] {
      TotalsFromLog(Before(log));
      TotalsAfter(Replay(Before(log)), Last(log));
    }
  }
}
