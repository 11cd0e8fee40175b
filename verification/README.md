# Verified model of the GameDAO subgraph indexer

The subgraph turns an unbounded log of contract events into stored entities, and keeps running totals beside
them: `raised` and `totalRaised`, `activeCampaigns`, `memberCount`, `totalMembers`, `activeOrganizations` and so on.
A total is a materialised view: nothing ever recomputes it, so it is worth exactly what the handlers maintain.
This project models the handlers and proves, for every run, how each total relates to what it summarises, including
where the two part and precisely why.

There are two indexers. The current one is `packages/subgraph/src` (`flow.ts`, `control.ts`, `factory.ts`,
`membership.ts`, with `utils/ids.ts`); its laws hold for runs that interleave the events of all four mappings and the
registry and signal events that can create the global record. The older one is `src/membership.ts` with `src/identity.ts`, whose events and ids differ and are modelled as written.
Beside them stand the id codecs of `scaffold.ts` and the two scripts that rewrite addresses in `subgraph.yaml` and
in env files.

## How it is built

| file | content |
|---|---|
| `text.dfy` | bytes, hexadecimal and decimal text, the composite entity ids and their injectivity |
| `tally.dfy`, `runs.dfy` | sums over maps; runs as folds, and the argument shared by all counter laws |
| `subgraph_store.dfy`, `subgraph_indexer.dfy` | current indexer: entities, events, the store after an event; the handlers as a class |
| `flow_laws.dfy`, `campaign_count_laws.dfy`, `organization_laws.dfy`, `membership_laws.dfy` | its counter laws |
| `payment_laws.dfy`, `campaign_state_laws.dfy`, `organization_record_laws.dfy`, `member_record_laws.dfy`, `user_laws.dfy` | every stored field, told from the log |
| `legacy_store.dfy`, `legacy_indexer.dfy` | older indexer, likewise |
| `legacy_membership_laws.dfy`, `legacy_voting_laws.dfy`, `legacy_record_laws.dfy` | its counter laws, and its stored fields told from the log |
| `codec.dfy` | the bytes8 / alphanumeric codecs and the byte loop of the ids |
| `line_patterns.dfy`, `env_file.dfy` | the multi-line patterns, and the script that rewrites env files |
| `manifest_lines.dfy`, `subgraph_manifest.dfy` | `subgraph.yaml` as lines under those patterns, and the loop that rewrites it |

`Replay(log)` is the store after a run. The class `Indexer` performs each handler field by field on mutable tables and
keeps `Valid()`: the tables are exactly `Replay` of the handled events. Every law is then a lemma about `Replay(log)`
for an arbitrary `log`.

The counter laws come in three forms. A *drift law* says, for every run, counter = quantity + the sum of what single
events let slip (`Runs.Drift`). An *if-and-only-if law* says the two agree after every event exactly when every event was
handled in a state satisfying a stated condition (`Runs.StaysIff`, `Runs.HoldsIff`). A *law from the log* replaces conditions on the store
by conditions on the events alone; this is where the injectivity of the composite ids is used.

The *record laws* say, for every run, what each stored field holds in terms of the fields of the latest event that decides it, with
the codes and starting values written out: states, amounts with their signs, counts, links and parties. They do not mention the
functions that define a step, so they hold the step to the events.

## Findings

- `activeCampaigns` is documented as the number of active campaigns (`packages/subgraph/schema.graphql:14`). It agrees with
  that number throughout a run only if no campaign is ever created (`FlowLaws.ActiveAgreesIff`): a creation counts a campaign
  saved as CREATED, and a finalisation uncounts a campaign whatever its state.
- `activeOrganizations` can fall below the number of ACTIVE organizations: a member event may store a stub organization while
  there is no global record, and a state change then activates it uncounted. `OrganizationLaws.UndercountHappens` is such a run;
  `NeverUndercountsIff` is the exact condition.
- `totalRaised` ignores the amount a finalisation reports and the amount a re-creation forgets. `FlowLaws.RaisedDriftHappens`
  is a run that shows it; `RaisedAgreesIff` is the exact condition.
- `contributorCount` is documented as the number of contributors (`packages/subgraph/schema.graphql:353`) and counts
  contributions: `CampaignCountLaws.CountedTwice` is a run. It is that number iff nobody contributes twice (`ContributorCountLaw`).
- `Organization.totalCampaigns` is overwritten by announcements and misses campaigns created while the organization is absent
  (`CampaignCountLaws.CampaignMissed`); `OwnAgreesIff` is the exact condition.
- In the current indexer an undelegation looks its record up under its own timestamp, a delegation stores it under the
  block's; one that carries any other timestamp leaves the record active (`MembershipLaws.LaterUndelegationMisses`).
- In `subgraph.yaml` a listed data source without an address or startBlock line of its own gets that line of the first source
  below that has one rewritten (`SubgraphManifest.MissingLineClobbersNext`, with `AddressWithoutStartBlock` as an input), and then
  the order of the source map may decide the result (`OrderDecides`). One with a startBlock line and no address line after its name
  is skipped (`StartBlockWithoutAddress`). `LoopIsPerBlockIff`, `PerBlockInAnyOrderIff` and `OrderDoesNotMatterIff` are the exact conditions.

## Assumptions

- Saving writes the fields that were set and no entity is ever deleted. `new Entity(id)` followed by `save` sets every modelled field.
- `BigInt` and `BigDecimal` are unbounded integers (only integers are ever stored in the modelled fields); the numbers in
  events are arbitrary integers, timestamps non-negative.
- `try_getOrganization` is an arbitrary optional result carried by the announcing event.
- An announcement by `control.ts` whose call to the contract reverts leaves the non-null field `prime` unset
  (`packages/subgraph/src/control.ts:104-121`, `packages/subgraph/schema.graphql:242`). For an id stored before, the stored value
  remains; for a new id the save stops indexing, so a real run ends there. The model, which does not carry `prime`, goes on; its laws
  hold of every run up to such an event.
- A replacement text contains no `$`, and a data-source name, contract name or network suffix contains no character that is special in
  a regular expression: true of hexadecimal addresses and of the names listed in the two scripts.
- The replacement texts of `packages/subgraph/scripts/update-addresses.js:85-86` put an address or a number directly behind `$1`. This is
  read as group 1: a two-digit reference such as `$10` falls back to `$1` and a digit when the pattern has fewer than ten groups, and
  these have two and one.
- `deployBlock`, where it is a number, is a natural number written in decimal digits.

## Model

| member | source | states |
|---|---|---|
| SubgraphIndexer.Indexer.Run | packages/subgraph/src/flow.ts:67-307 | Handling any sequence of events one after the other leaves exactly the replayed store, so every law about `Replay` holds of the tables |
| SubgraphIndexer.Indexer.GetOrCreateUser | packages/subgraph/src/flow.ts:47-65 | Returns the stored user, or a zeroed one that it has just stored; no other user changes |
| SubgraphIndexer.Indexer.GetOrCreateOrganization | packages/subgraph/src/utils/ids.ts:70-104 | Returns the stored organization, or an INACTIVE stub with zero counts and no treasury that it has just stored |
| SubgraphIndexer.Indexer.HandleCampaignCreated | packages/subgraph/src/flow.ts:67-145 | Campaign saved as CREATED with nothing raised, both campaign counters up by one, the organization's count up if it exists |
| SubgraphIndexer.Indexer.HandleCampaignStateChanged | packages/subgraph/src/flow.ts:167-193 | State mapped and saved for a known campaign; `activeCampaigns` follows moves into and out of ACTIVE |
| SubgraphIndexer.Indexer.HandleContributionMade | packages/subgraph/src/flow.ts:195-232 | Record saved under its composite id; for a known campaign `raised` and `totalRaised` move together; the contributor is counted |
| SubgraphIndexer.Indexer.HandleCampaignFinalized | packages/subgraph/src/flow.ts:234-256 | Known campaign FINALIZED with the reported total, `activeCampaigns` down whatever the state, `totalRaised` untouched |
| SubgraphIndexer.Indexer.HandleContributionRefunded | packages/subgraph/src/flow.ts:272-307 | Negative record saved under the refund id; for a known campaign both totals go down together |
| SubgraphIndexer.Indexer.HandleOrganizationCreated | packages/subgraph/src/control.ts:72-191 | Organization overwritten from chain data or defaults, treasury linked both ways, creator and both organization counters up by one |
| SubgraphIndexer.Indexer.HandleOrganizationStateChanged | packages/subgraph/src/control.ts:193-220 | State mapped and saved for a known organization; the counter follows only if the global record exists |
| SubgraphIndexer.Indexer.HandleStakeWithdrawn | packages/subgraph/src/control.ts:222-237 | The staker becomes a stored user; no counter moves |
| SubgraphIndexer.Indexer.HandleFactoryOrganizationCreated | packages/subgraph/src/factory.ts:12-123 | As the other announcement, with state ACTIVE and member count 1, after two saves |
| SubgraphIndexer.Indexer.HandleMemberAdded | packages/subgraph/src/membership.ts:24-66 | Member saved ACTIVE, count of the organization, created if missing, up by one |
| SubgraphIndexer.Indexer.HandleMemberRemoved | packages/subgraph/src/membership.ts:68-88 | A stored member becomes INACTIVE and the count goes down; otherwise at most a stub appears |
| SubgraphIndexer.Indexer.HandleMemberStateUpdated | packages/subgraph/src/membership.ts:90-107 | A stored member's state is replaced; no count moves |
| SubgraphIndexer.Indexer.HandleVotingDelegated | packages/subgraph/src/membership.ts:141-172 | With both members stored, an active record under the block timestamp; users and organization exist afterwards |
| SubgraphIndexer.Indexer.HandleVotingUndelegated | packages/subgraph/src/membership.ts:174-192 | The record under the event's own timestamp, if any, becomes inactive; every other record stays |
| SubgraphIndexer.Indexer.HandleModuleChanged | packages/subgraph/src/registry.ts:123-153 | The global record exists afterwards, zeroed if it is new; no modelled counter moves |
| SubgraphIndexer.Indexer.HandleProposalCreated | packages/subgraph/src/signal.ts:72-159 | The creator is a stored user and the global record exists; no modelled counter moves |
| FlowLaws.RaisedLaw | packages/subgraph/src/flow.ts:195-307 | Every run: the campaigns' `raised` sum to `totalRaised` plus, over finalisations, reported minus indexed amount, less amounts forgotten by re-creations |
| FlowLaws.RaisedAgreesIff | packages/subgraph/src/flow.ts:241-251 | The two agree after every event iff every finalisation reports the indexed amount and only campaigns with nothing raised are created again |
| FlowLaws.RaisedDriftHappens | packages/subgraph/src/flow.ts:241-251 | A run of three events, for any campaign and amounts: the campaigns show the reported amount, `totalRaised` the paid one |
| FlowLaws.LedgerLaw | packages/subgraph/src/flow.ts:198-292 | Every run and campaign: `raised` is the signed sum of its Contribution records plus the drift of that campaign |
| FlowLaws.BalancedIff | packages/subgraph/src/flow.ts:198-292 | All campaigns equal their records after every event iff no event creates over money or records, replaces a non-zero record, or finalises a different amount |
| FlowLaws.RaisedFromLog | packages/subgraph/src/flow.ts:198-292 | Every run: a campaign is stored iff it was created, and `raised` is the latest creation or finalisation value in the log plus the signed payments since |
| FlowLaws.LedgerFromLog | packages/subgraph/src/flow.ts:198-292 | If in the log each campaign is created once before its payments, no payment triple repeats and finalisations report what the log says was raised, every ledger balances |
| PaymentLaws.TotalRaisedFromLog | packages/subgraph/src/flow.ts:218-299 | Every run: `totalRaised` is the sum of contributed minus refunded amounts over payments to campaigns created before them |
| PaymentLaws.ContributionRecordLaw | packages/subgraph/src/flow.ts:198-208 | Every run: under a contribution id stand its parts and the amount of the latest contribution with them |
| PaymentLaws.RefundRecordLaw | packages/subgraph/src/flow.ts:275-285 | Every run: under a refund id stand its parts and the negated amount of the latest refund with them |
| PaymentLaws.RecordStoredIff | packages/subgraph/src/flow.ts:198-285 | Every run: a record is stored under an id iff a contribution or refund of the run has that id |
| FlowLaws.SameKeySameCampaign | packages/subgraph/src/flow.ts:199 | Records that share an id share campaign, contributor and transaction, so no ledger is written over by another |
| FlowLaws.ActiveCampaignsLaw | packages/subgraph/src/flow.ts:133-251 | Every run: `activeCampaigns` = ACTIVE campaigns + creations + creations over ACTIVE ones - finalisations of non-ACTIVE ones |
| CampaignStateLaws.StateFromLog | packages/subgraph/src/flow.ts:36-45 | Every run: a created campaign is CREATED, FINALIZED or in the state with code 1 ACTIVE, 2 PAUSED, 3 FINALIZED, 4 CANCELLED, any other CREATED, as its latest creation, finalisation or state change says |
| CampaignStateLaws.ActiveFromLog | packages/subgraph/src/flow.ts:174-188 | Every run: a campaign is stored as ACTIVE iff the latest of these events is a change to state 1 |
| CampaignStateLaws.ActiveCampaignsFromLog | packages/subgraph/src/flow.ts:133-251 | Every run: `activeCampaigns` = campaigns whose latest decision is a change to state 1 + creations + creations over such campaigns - finalisations of other created ones, all read off the log |
| CampaignStateLaws.OwnerFromLog | packages/subgraph/src/flow.ts:72-79 | Every run: a campaign belongs to the organization and creator of its latest creation |
| FlowLaws.NeverUndercountsCampaigns | packages/subgraph/src/flow.ts:133-251 | If a campaign is finalised at most once after each creation, the counter never falls below the number of ACTIVE campaigns |
| FlowLaws.ActiveAgreesIff | packages/subgraph/src/flow.ts:79-134 | The counter equals the number of ACTIVE campaigns throughout a run iff the run creates no campaign |
| FlowLaws.TotalCampaignsLaw | packages/subgraph/src/flow.ts:70-136 | Every run: `totalCampaigns` is at least the number of stored campaigns, with equality iff no id is created twice |
| CampaignCountLaws.ContributorCountLaw | packages/subgraph/src/flow.ts:205-216 | Every run: `contributorCount` is at least the number of distinct contributors since the latest creation, with equality iff none of them contributed twice |
| CampaignCountLaws.CountedTwice | packages/subgraph/src/flow.ts:212-216 | A run of three events, for any campaign and contributor: two contributions by one contributor leave a count of 2 |
| CampaignCountLaws.OwnCampaignsLaw | packages/subgraph/src/flow.ts:139-144 | Every run and organization: `totalCampaigns` = its stored campaigns + announced numbers put in their place + campaigns created again - campaigns created while it was absent |
| CampaignCountLaws.OwnAgreesIff | packages/subgraph/src/flow.ts:139-144 | Exact after every event iff announcements report the stored number, no campaign of the organization is created again, and none is created for it while it is absent |
| CampaignCountLaws.CampaignMissed | packages/subgraph/src/flow.ts:139-144 | A run of two events after which a stored organization has one campaign and counts none |
| OrganizationLaws.ActiveOrganizationsLaw | packages/subgraph/src/control.ts:187-215 | Every run of both announcers: `activeOrganizations` = ACTIVE organizations + announcements saved non-ACTIVE + ACTIVE ones overwritten - activations without a global record |
| OrganizationLaws.ActiveAgreesIff | packages/subgraph/src/control.ts:82-215 | Exact after every event iff announcements are of new or non-ACTIVE ids and save ACTIVE, and state changes across ACTIVE find the global record |
| OrganizationLaws.NeverUndercountsIff | packages/subgraph/src/control.ts:208-219 | Never below the number of ACTIVE organizations iff no organization is activated while the global record is missing |
| OrganizationLaws.StatsExistIff | packages/subgraph/src/control.ts:166-190 | The global record exists exactly from the first announcement, campaign creation, module change or proposal on |
| OrganizationLaws.UndercountHappens | packages/subgraph/src/control.ts:208-219 | A concrete two-event run, for any organization and member, after which the counter is 0 with one ACTIVE organization |
| OrganizationLaws.TotalOrganizationsLaw | packages/subgraph/src/control.ts:144-188 | Every run: the users' `totalOrganizations` sum to the global one, which is at least the number of announced organizations, with equality iff none is announced twice |
| OrganizationLaws.BacklinkIff | packages/subgraph/src/control.ts:124-152 | Every run: an announced organization's creator and treasury are stored, and the treasury points back iff no other organization has since been announced with it |
| OrganizationLaws.LinksHold | packages/subgraph/src/factory.ts:54-85 | If organizations never share a treasury, all links hold, re-announcement by the other source included |
| OrganizationRecordLaws.OrganizationStoredIff | packages/subgraph/src/utils/ids.ts:70-104 | Every run: an organization is stored iff it was announced or met in a member addition, removal or delegation |
| OrganizationRecordLaws.StateFromLog | packages/subgraph/src/control.ts:28-35 | Every run: the state is the announced one (ACTIVE from the factory or without chain data) or the one with the code of the latest state change, 0 INACTIVE, 2 LOCKED, 3 DISSOLVED, any other ACTIVE |
| OrganizationRecordLaws.StubIsInactive | packages/subgraph/src/utils/ids.ts:95 | Every run: an organization met in member events and not decided on since is INACTIVE |
| OrganizationRecordLaws.StubIsUnlinked | packages/subgraph/src/utils/ids.ts:78-88 | Every run: an organization never announced has no creator and no treasury |
| UserLaws.UserFromLog | packages/subgraph/src/flow.ts:47-65 | Every run: a user is stored iff some event names the address, and counts the organizations announced for it and the contributions it made |
| UserLaws.TotalsFromLog | packages/subgraph/src/control.ts:187 | Every run: `totalOrganizations` is the number of announcements and `totalCampaigns` the number of creations |
| MembershipLaws.MemberStoredIff | packages/subgraph/src/membership.ts:33-82 | A Member entity exists exactly for pairs that were ever added; removal keeps it |
| MembershipLaws.MemberCountLaw | packages/subgraph/src/membership.ts:24-88 | Every run and organization: `memberCount` = present members + an offset set by the latest announcement (1 from the factory, the chain's count with chain data, 0 otherwise) and moved only by repeated additions and removals of absent members |
| MembershipLaws.MemberCountWhenAnnouncedFirst | packages/subgraph/src/factory.ts:29 | Announced once before its member events, in a run that adds absent and removes present members: 1, the chain's count or 0, by the kind of announcement, + present members, whatever state updates say |
| MembershipLaws.MemberCountWhenUnannounced | packages/subgraph/src/utils/ids.ts:70-104 | A stub organization counts exactly its present members in such a run |
| MembershipLaws.DelegationLaw | packages/subgraph/src/membership.ts:158-190 | Every run: a record exists iff a delegation between added members was handled in that block, and is active iff no undelegation carrying that very timestamp followed |
| MembershipLaws.LaterUndelegationMisses | packages/subgraph/src/membership.ts:183-190 | An undelegation carrying any other timestamp leaves an active record active |
| MemberRecordLaws.MemberLinks | packages/subgraph/src/membership.ts:33-40 | Every run: a member record names its organization and user |
| MemberRecordLaws.MemberFromLog | packages/subgraph/src/membership.ts:38-103 | Every run: a member once added is ACTIVE, INACTIVE or in the state with code 0 INACTIVE, 1 ACTIVE, 2 PAUSED, any other BANNED, as its latest addition, removal or state update says |
| MemberRecordLaws.DelegationFromLog | packages/subgraph/src/membership.ts:158-170 | Every run: a delegation record names its parties and carries the amount and the event's own timestamp of the latest stored delegation of its block |
| LegacyIndexer.Indexer.Run | src/membership.ts:21-286 | Handling any sequence of events leaves exactly the replayed store |
| LegacyIndexer.Indexer.HandleMemberAdded | src/membership.ts:21-110 | For a stored organization: user, member, organization and global counts up by one, the active count for state 1; otherwise nothing |
| LegacyIndexer.Indexer.HandleMemberRemoved | src/membership.ts:112-151 | For a stored member: all counts down by one, the active count if its state is 1, the entity kept; otherwise nothing |
| LegacyIndexer.Indexer.HandleMemberStateUpdated | src/membership.ts:153-179 | For a stored member: state replaced, active count following |
| LegacyIndexer.Indexer.HandleVotingPowerUpdated | src/membership.ts:197-215 | For a stored member: the global power moves by new minus old |
| LegacyIndexer.Indexer.HandleVotingDelegated | src/membership.ts:217-265 | With organization and both members stored: an active record and one more delegation; otherwise nothing |
| LegacyIndexer.Indexer.HandleVotingUndelegated | src/membership.ts:267-286 | An inactive record with the negated amount, unconditionally |
| LegacyIndexer.Indexer.HandleProfileCreated | src/identity.ts:18-94 | Profile saved unverified, owner stored as a user, profile count up by one |
| LegacyIndexer.Indexer.HandleProfileVerified | src/identity.ts:112-135 | A stored profile becomes verified and is counted |
| LegacyMembershipLaws.MembershipConservation | src/membership.ts:21-151 | Every run, no hypotheses: the organizations' counts grew together by the sum of users' memberships, which is `totalMembers`; every stored member's organization, user and global record exist |
| LegacyMembershipLaws.MemberStoredIff | src/membership.ts:24-65 | A Member entity exists exactly for pairs ever added to a stored organization, and names them |
| LegacyMembershipLaws.RelationLaw | src/membership.ts:49-146 | In a disciplined run organization counts are row sizes above the starting counts, user counts column sizes and `totalMembers` the size of one membership relation |
| LegacyMembershipLaws.DisciplinedIff | src/membership.ts:93-140 | `totalMembers` is the size of the relation after every event iff members are added only while absent and, once known, removed only while present |
| LegacyMembershipLaws.ActiveMembershipsLaw | src/membership.ts:93-178 | Every run: `totalActiveMemberships` = present members in state 1 + re-additions of such members - removals of absent ones stored in state 1 + what state updates of absent members move |
| LegacyMembershipLaws.ActiveMatchesIff | src/membership.ts:93-178 | Exact after every event iff none of these three happens, active meaning state 1 |
| LegacyMembershipLaws.ActiveLaw | src/membership.ts:93-178 | With state updates of present members, `totalActiveMemberships` is the number of present members in state 1 and at most `totalMembers` |
| LegacyMembershipLaws.VerifiedProfilesLaw | src/identity.ts:48-133 | Every run: `verifiedProfiles` is at least the number of verified profiles, with equality iff none is verified or created again while verified |
| LegacyVotingLaws.TotalDelegationsLaw | src/membership.ts:247-285 | Every run: `totalDelegations` is at least the number of active records, with equality iff nothing is saved over an active record |
| LegacyVotingLaws.HeldLaw | src/membership.ts:217-286 | Every run and (organization, delegator, delegatee): record amounts sum to the amounts of accepted delegations minus those of undelegations, less what was saved over |
| LegacyVotingLaws.DelegationsFromLog | src/membership.ts:217-286 | If no id is used twice, nothing is lost and `totalDelegations` is the number of active records |
| LegacyRecordLaws.VoteFromLog | src/membership.ts:217-286 | Every run: under a delegation id stand its parties and, of the latest accepted event with these parts, the amount and active for a delegation, the negated amount and inactive for an undelegation |
| LegacyRecordLaws.VoteStoredIff | src/membership.ts:217-286 | Every run: such a record is stored iff a delegation or undelegation with these parts was accepted |
| LegacyRecordLaws.MemberStateFromLog | src/membership.ts:56-165 | Every run: the state of a known member is the one its latest addition or state update carries |
| LegacyRecordLaws.ProfileFromLog | src/identity.ts:40-125 | Every run: a profile belongs to the owner of its latest creation and is verified iff a verification has followed it |
| LegacyRecordLaws.TotalProfilesFromLog | src/identity.ts:80-94 | Every run: `totalProfiles` is the number of profile creations |
| LegacyRecordLaws.UserStoredIff | src/membership.ts:36-50 | Every run: a user is stored iff added to a stored organization or owner of a created profile |
| LegacyVotingLaws.VotingPowerLaw | src/membership.ts:197-215 | Every run and interleaving: `totalVotingPower` = sum over members of last new minus first old power, less the jumps between a member's reports |
| LegacyVotingLaws.TelescopesIff | src/membership.ts:208-214 | It telescopes after every event iff each member's reports form a chain |
| LegacyVotingLaws.VotingPowerWhenChained | src/membership.ts:208-214 | If each report's old power is the member's previous new power, the total is the sum of last new minus first old power |
| Text.JoinInjective | packages/subgraph/src/flow.ts:199 | Ids joined with dashes from dash-free parts can be taken apart again |
| Text.MemberKeyInjective | packages/subgraph/src/membership.ts:34 | Member ids are equal iff organization and member are |
| Text.DelegationKeyInjective | packages/subgraph/src/membership.ts:160 | Delegation ids are equal iff organization, delegator, delegatee and timestamp are |
| Text.ContributionKeyInjective | packages/subgraph/src/flow.ts:199 | Contribution ids are equal iff campaign, contributor and transaction are |
| Text.RefundKeyInjective | packages/subgraph/src/flow.ts:276 | Refund ids are equal iff campaign, contributor and transaction are |
| Text.RefundIsNotContribution | packages/subgraph/src/flow.ts:276 | No refund id equals a contribution id |
| Text.KeyText | packages/subgraph/src/membership.ts:34 | The ids as text: the parts in their order with "-", for refunds "-refund-", between them |
| Text.ToHexAt | packages/subgraph/src/flow.ts:199 | Hexadecimal text is 0x and, byte by byte, the high lower-case digit before the low one |
| Text.DecimalReadsBack | packages/subgraph/src/membership.ts:160 | Decimal text has digits only, no leading zero, and reads back as the number |
| Text.ToHexIsLowerCase | packages/subgraph/src/control.ts:53 | Lower-casing a user id changes nothing, so both spellings name one user |
| Codec.Bytes8ToAlphanumericString | packages/contracts-solidity/scripts/scaffold.ts:39-57 | The loop computes the decoder, malformed input included |
| Codec.AlphanumericStringToBytes8 | packages/contracts-solidity/scripts/scaffold.ts:59-73 | The loop computes the encoder, malformed input included |
| Codec.ByteLoop | packages/subgraph/src/identity.ts:17-25 | The byte loop yields one code unit per byte, which is what the decoder makes of the bytes' hexadecimal text |
| Codec.DecodeEncodeIff | packages/contracts-solidity/scripts/scaffold.ts:39-73 | For every text: encoding then decoding gives it back iff its eight units are at most 255, or it does not have eight units and is not taken for hexadecimal |
| Codec.EncodeDecodeIff | packages/contracts-solidity/scripts/scaffold.ts:39-73 | For every text: decoding then encoding gives it back iff it is 0x with sixteen lower-case digits, or it passes both unchanged |
| Codec.ByteLoopAgrees | packages/subgraph/src/utils/ids.ts:10-41 | Byte loop, decoder and encoder agree on every eight bytes, so ids never collide |
| Codec.DecodeAt | packages/contracts-solidity/scripts/scaffold.ts:39-57 | Of sixteen digits in either case, with or without 0x, the decoder makes eight units, unit by unit the value of two digits |
| Codec.EncodeAt | packages/contracts-solidity/scripts/scaffold.ts:59-73 | Of eight units at most 255 the encoder makes 0x and, unit by unit, the high digit before the low one |
| EnvFile.UpdateEnvContent | scripts/update-contract-addresses.js:181-201 | Afterwards `NEXT_PUBLIC_<contract>_ADDRESS<suffix>` of every contract reads back its address and every other variable reads as before; the loop sets the entries one after the other |
| EnvFile.SetEntryLines | scripts/update-contract-addresses.js:187-197 | One entry replaces exactly the first line that binds its variable, keeping every terminator, or appends one line |
| EnvFile.SetAllReadsBack | scripts/update-contract-addresses.js:185-198 | Afterwards every listed variable's first binding is its address |
| EnvFile.SetAllKeepsOthers | scripts/update-contract-addresses.js:185-198 | Every other variable reads as before |
| EnvFile.SetAllKeepsOtherLines | scripts/update-contract-addresses.js:185-198 | Lines that bind no listed variable survive unchanged and in order |
| EnvFile.SetAllTwice | scripts/update-contract-addresses.js:185-198 | Running the update twice is running it once |
| EnvFile.EntriesArePlain | scripts/update-contract-addresses.js:185-188 | Distinct contract names give distinct variables, so the laws about lists of entries apply to what the script passes |
| EnvFile.UpdateLaw | scripts/update-contract-addresses.js:181-201 | For every content, suffix and map from plain contract names to addresses: each contract's variable holds its address, every other variable its old value |
| SubgraphManifest.RewriteManifest | packages/subgraph/scripts/update-addresses.js:60-89 | The loop looks up each source's contract, applies or skips the entry in turn and counts both |
| SubgraphManifest.ManifestReadsBack | packages/subgraph/scripts/update-addresses.js:62-89 | If the listed sources have lines of their own: each source's address becomes its contract's, its startBlock the deploy block or 0; sources whose contract is missing or has no address, and all other lines, stay |
| SubgraphManifest.NumberReadsBack | packages/subgraph/scripts/update-addresses.js:69 | Start blocks are written in digits that read back as the number |
| SubgraphManifest.TextExample | packages/subgraph/scripts/update-addresses.js:72-86 | A text of three lines and what the loop makes of it, character by character |
| ManifestLines.EveryTextIsADocument | packages/subgraph/scripts/update-addresses.js:33-34 | Every text of line-feed lines in which an opened address is closed and a startBlock is followed by something on its line is the rendering of a well-formed document |
| ManifestLines.PatternEdits | packages/subgraph/scripts/update-addresses.js:72-79 | On every well-formed document the pattern for a source edits exactly the first address or startBlock line below the first line with its name, wherever that is, or does not match |
| SubgraphManifest.LoopLeavesLast | packages/subgraph/scripts/update-addresses.js:62-89 | For every well-formed document and source map: each line ends with the target of the last entry that lands on it, or as it was; an entry with no address line below its name lands nowhere |
| SubgraphManifest.LoopOnEveryText | packages/subgraph/scripts/update-addresses.js:62-89 | The same for every such text, with idempotence and the number of entries applied |
| SubgraphManifest.LoopIsPerBlockIff | packages/subgraph/scripts/update-addresses.js:54-89 | With distinct names: the loop is the per-source update iff no line is last reached by another source with something else than is due there, and no startBlock line of a skipped source still differs from its target |
| SubgraphManifest.OrderDoesNotMatterIff | packages/subgraph/scripts/update-addresses.js:62 | The result is the same for every order of the source map iff no two entries land on one line with different values |
| SubgraphManifest.PerBlockInAnyOrderIff | packages/subgraph/scripts/update-addresses.js:62-89 | The loop is the per-source update for every order of the map iff no entry at all lands on another source's line with something else than is due, and none is skipped as above |
| SubgraphManifest.LoopIsPerBlockUpdate | packages/subgraph/scripts/update-addresses.js:62-89 | If the listed sources have address and startBlock lines of their own, in either order, the loop is the per-source update for every order of the map |
| SubgraphManifest.AppliedIsReaching | packages/subgraph/scripts/update-addresses.js:80-88 | Every run: exactly the entries with a target and an address line below their name are applied |
| SubgraphManifest.AppliedIsListed | packages/subgraph/scripts/update-addresses.js:80-88 | If listed sources have their own lines, exactly the entries with an address and a data source in the document are applied |
| SubgraphManifest.LoopKeepsOtherLines | packages/subgraph/scripts/update-addresses.js:54-59 | On every well-formed document the loop keeps the number of lines, every other line, and all of an address or startBlock line but its value |
| SubgraphManifest.LoopTwice | packages/subgraph/scripts/update-addresses.js:62-89 | On every well-formed document a second run changes nothing, whatever the first one wrote where |
| SubgraphManifest.OwnLineIff | packages/subgraph/scripts/update-addresses.js:70-79 | A pattern lands on its own source's line iff the source has such a line before the next name |
| SubgraphManifest.MissingLineClobbersNext | packages/subgraph/scripts/update-addresses.js:54-59 | A listed source without a line of one kind rewrites that line of the first source below that has one, however many without lie between |
| SubgraphManifest.AddressWithoutStartBlock | packages/subgraph/scripts/update-addresses.js:85-86 | An input: a source with an address line only gets its address, and the next source gets its start block |
| SubgraphManifest.StartBlockWithoutAddress | packages/subgraph/scripts/update-addresses.js:80-84 | An input: a source with a startBlock line only is skipped and the text stays |
| SubgraphManifest.OrderDecides | packages/subgraph/scripts/update-addresses.js:62 | An input: a source without lines above one with lines, where one order of the map gives the per-source update and the other does not |

## Left out

- `handleCampaignUpdated`, `handleRewardsDistributed`, `handleMemberTierUpdated`, the current `handleVotingPowerUpdated`, `handleProfileUpdated`: they write only fields the model does not carry.
- `handleProtocolFeeCollected` and `totalTreasuryTransactions`: one unconditional counter.
- SubgraphIndexer.Indexer.HandleOrganizationCreated: does not stop the run when the contract call reverts for a new id, because `prime` is not modelled (see Assumptions).
- Name claims (`handleNameClaimed`, `handleNameReleased`): one record each, no total.
- Timestamps, block numbers, transactions, gas, titles, metadata, organization type, access and fee models, prime, tiers, stakes, `OrganizationStake`, indexing status, treasury templates.
- The mappings for tokens, staking, identity in the current subgraph and treasuries: they may also create users; runs here do not contain them. Of the registry and signal mappings, runs contain what creates the global record; modules, proposals and votes are left out.
- The Solidity contracts: run hypotheses such as adding only absent members are stated, not derived.
- Reading and writing files, network selection, prompts and console output of the scripts; the regular-expression engine is the function in `line_patterns.dfy`, for the patterns the scripts use.
- Documents with carriage returns, with address values that span lines, or with a startBlock prefix followed by spaces only: the patterns are defined for them, the document laws are not stated for them.
