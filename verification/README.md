# CyCentra 360: a verified model of its stateful cores

CyCentra 360 collects security events from endpoint agents and connectors, keeps a posture score for each host, scans
the attack surface of its tenants, and rotates its own secrets. This project models the parts of it that keep state
over many operations, and proves what those parts guarantee over every input and every run. Where the code falls short
of what its own comments promise, a lemma gives the condition under which the promise holds, or the input that breaks it.

| module | what it models |
|---|---|
| `HostDedup`, `HostSources`, `HostKeys`, `HostDedupTheorems`, `HostDedupOrder` | the agent list of a host refresh: three sources merged into an ordered dictionary, then two folds that each keep one agent per hostname stem and per IP address |
| `HostCache`, `HostRefreshes` | the host posture cache under refreshing, deleting and setting tiers: as whole methods, and as the transactions of any number of refreshes by the portal and by the scheduler, interleaved |
| `AssetLifecycle`, `AssetMoves`, `AssetTheorems` | asset states, audit logs and the baseline list, changed by scans and by the user API through whole-store loads and saves |
| `SubdomainHistory` | the subdomain history one scan leaves for the next |
| `TamperLockout` | the password lockout in front of stopping and starting the agent |
| `Telemetry` | the bounded queue between the agent's collectors and its sender |
| `DuplicateSuppression` | the expiring set-if-absent store for duplicate events, and the bridge that pushes batches through it |
| `ColdStorage` | exporting aged events to archive files and deleting them from the hot store |
| `MarkedBlocks`, `HostsSinkhole`, `SinkholeLines` | replacing a marked block of text, and the sinkhole block of the hosts file |
| `DotEnv`, `Quotes`, `KvSecrets`, `KvSecretsTheorems`, `LineCounts`, `SecretRotation` | pulling vault values into the `.env` file, and the two readers of that file |
| `Posture`, `PostureCosts` | the posture score of a host in its two implementations, and the tier-weighted overall score |
| `Options`, `Text`, `TextLaws`, `Quotients` | optional values, Python's string operations on ASCII text, division |

Two styles meet in each module. An operation that changes state is a method of a class, or a loop over a list, proved
equal to a specification function of the old state; the theorems are about that function, or about runs of steps built
from it. `HostSources`, `HostKeys`, `AssetMoves`, `SinkholeLines`, `Quotes` and `PostureCosts` say what those functions
mean in terms of rows, names, characters, lines and points. An insertion-ordered dictionary is a sequence of entries with distinct ids.

Where code and documentation disagree, the model follows the code:

- The comment above the IP pass says that it prefers a registry agent over an alerts-only entry. The code looks at the
  platform only: `BareAgentIsLostToGhost`, with the exact condition in `GhostKeepsAddressIff`.
- Deleting a host is documented to keep it from reappearing. It can come back through an alert of the last 90 days,
  always with the next scheduled refresh (`AlertedHostReturnsWhenScheduled`) and sometimes with one of the portal
  (`AlertedHostReturnsIff`), through a refresh already under way (`DeletedDuringRefreshReturnsIff`), or by enrolling,
  and in no other way (`ReturnsOnlyIfAlertedOrEnrolled`). An EDR agent that enrols again gets its old row, which
  stays removed; a collector's row is revived (`RegisteredAfter`).
- The scan rules say that a baseline asset not found is dropped. Assets that the first scan baselines are not on the
  list that this rule goes through: `FirstScanHostsAreNeverDropped`. The comment on the transition table allows
  one automatic transition and the API transitions of the table; `RemovalLeavesTheTableIff` says which others are
  logged too.
- A subdomain is documented as new if it was never seen before. The code compares with the last saved scan only:
  `IsNewIff`, `FoundBeforeIsNewAgain`.
- A pull is documented to write the latest values of the vault. A key of the map that the vault does not return is
  written too, with the value of the running process: `UnfetchedKeyTakesTheProcessValue`.
- Putting events back into the queue is meant to keep them from being lost. They are not, but the agent can stop
  for good: `StuckIff`, `StuckIsReachable`.

## Model

| member | source | states |
|---|---|---|
| `HostDedup.Merge` | backend/siem_proxy.py:1598-1611 | Assigning the alerts entries and then the registry entries gives the merged dictionary: for an id known to both, the registry entry in the place of the first. |
| `HostDedup.PutAllContents` | backend/siem_proxy.py:1598-1611 | A dictionary built by assignments has each id once, with the last entry put under it, and keeps earlier entries of other ids. |
| `HostDedup.MergedIds` | backend/siem_proxy.py:1598-1611 | No two agents of the merged dictionary share an id. |
| `HostSources.MergedIs` | backend/siem_proxy.py:1565-1611 | An agent is in the merged dictionary if and only if it is what the last row of its id that is not removed says, EDR rows before collectors, or there is no such row and it is what its last alert says: name or else id, address, platform, report and liveness, with five minutes to be called disconnected. |
| `HostDedup.StemDedup` | backend/siem_proxy.py:1627-1651 | The first loop, with its record of winners, its deletions and its re-insertions, leaves exactly the champions of the stem groups, in visiting order; deleting the superseded agent never fails. |
| `HostDedup.IpVisit` | backend/siem_proxy.py:1667-1693 | One turn of the second loop takes the champions and recorded winners of the agents visited so far to those of one agent more. |
| `HostDedup.IpDedup` | backend/siem_proxy.py:1664-1694 | The second loop leaves exactly the champions of the address groups, whichever of the two rivals is popped or set again. |
| `HostDedup.VisitStep` | backend/siem_proxy.py:1629-1693 | How the champions of any key change when one more agent is visited: added, put in the place of the loser at the end, or discarded; and that the recorded winner is always still in the output. |
| `HostDedup.ChampionsAreWinners` | backend/siem_proxy.py:1627-1694 | The survivors of a pass are exactly the agents that no other one eliminates, each once, and all of them were there before. |
| `HostDedup.CollectAgents` | backend/siem_proxy.py:1577-1694 | The agent list of a refresh is the merge followed by both passes, with distinct ids. |
| `HostKeys.StemIs` | backend/siem_proxy.py:1617-1622 | A name has the stem that it reduces to, by a relation on its characters: in lower case, one of the nine private domains at its end taken off, with a line break behind it or not, and then the spaces at both ends. |
| `HostKeys.OneStem` | backend/siem_proxy.py:1617-1622 | Every name reduces to exactly one stem. |
| `HostKeys.RivalsByNameIff` | backend/siem_proxy.py:1629-1634 | Two agents are of one group in the stem pass if and only if both have a platform, and stem, bar and lowered platform are the same text. |
| `HostKeys.RivalsByStemIff` | backend/siem_proxy.py:1629-1634 | While no platform contains the bar, if and only if the names reduce to one stem and the platforms are equal in lower case. |
| `HostKeys.WithAndWithoutDomainIff` | backend/siem_proxy.py:1617-1631 | An agent and one named like it with a private domain behind are of one group if and only if the first name ends in no private domain itself. |
| `HostKeys.OneOfBoth` | backend/siem_proxy.py:1627-1651 | So of two such agents one at most survives the stem pass, and both passes. |
| `HostKeys.RivalsByAddressIff` | backend/siem_proxy.py:1667-1672 | Two agents are of one group in the IP pass if and only if their addresses, without spaces around them, are the same and neither empty nor 127.0.0.1 nor ::1. |
| `TextLaws.TrimIsTrimmed` | backend/siem_proxy.py:1622 | Trimming leaves the one text that begins and ends with no space and has nothing but spaces around it. |
| `TextLaws.LowerIs` | backend/siem_proxy.py:1622 | Lowering replaces each capital letter by the small one of the same place, and nothing else. |
| `HostDedup.CollectAllHosts` | backend/cysiemstack/host_service.py:330-371 | The agent list of the scheduled refresher is the same merge followed by the stem pass alone. |
| `HostDedup.MergeScheduled` | backend/cysiemstack/host_service.py:331-347 | Its merge, which assigns a dictionary made of the registry rows, gives the same dictionary as the portal's. |
| `HostDedup.PutDictionary` | backend/cysiemstack/host_service.py:331-347 | Assigning the entries of a dictionary to another is assigning, in order, the entries it was made of. |
| `HostDedupTheorems.WinsIffEarliestGreatest` | backend/siem_proxy.py:1635-1693 | An agent survives a pass if and only if it is the earliest among the agents of greatest (has platform, keepalive) rank in its group. |
| `HostDedupTheorems.Represented` | backend/siem_proxy.py:1627-1694 | Every agent has exactly one survivor of its pass that stands for it: itself, or one of its group with at least its rank. |
| `HostDedupTheorems.SurvivorsAreNotRivals` | backend/siem_proxy.py:1627-1694 | No two survivors of a pass share its key. |
| `HostDedupTheorems.OnePerStemAndAddress` | backend/siem_proxy.py:1627-1694 | After both passes no two agents share a stem key or an address, every stem group has its one champion in stage two, and every address there has its one champion in the end. |
| `HostDedupTheorems.TwoLinks` | backend/siem_proxy.py:1627-1694 | Every agent reaches a survivor of both passes in at most two links, same stem key and then same address, along which rank never drops. |
| `HostDedupTheorems.PassIsIdentityIff` | backend/siem_proxy.py:1627-1694 | A pass changes nothing, order included, if and only if no two agents share its key. |
| `HostDedupTheorems.DeduplicationIsIdempotent` | backend/siem_proxy.py:1627-1694 | Deduplicating a second time changes nothing. |
| `HostDedupTheorems.OrderIrrelevantIff` | backend/siem_proxy.py:1627-1694 | The survivors of a pass are the same for every order of the dictionary if and only if no group has two agents tied on its greatest rank. |
| `HostDedupTheorems.PassOrder` | backend/cysiemstack/host_service.py:352-370 | For two orders of the same agents without such a tie the survivors are the same; the scheduled refresher has the stem pass only. |
| `HostDedupTheorems.DeduplicationOrder` | backend/siem_proxy.py:1627-1694 | Without ties on top of a stem group, or of an address among the survivors of the first pass, both passes together do not depend on the order. |
| `HostDedupTheorems.StemTieMatters` | backend/siem_proxy.py:1641-1650 | A tie in the stem pass matters too: of two agents of one stem and keepalive, whichever is visited first survives both passes. |
| `HostDedupOrder.DeduplicationOrderIff` | backend/siem_proxy.py:1627-1694 | The outcome of both passes together is the same for every order if and only if every agent that can survive them has to, where both are conditions on keys and ranks alone. |
| `HostDedupOrder.SurvivorMaySurvive` | backend/siem_proxy.py:1627-1694 | An agent that survives in some order is on top of its stem group, and every group has someone on top who does not beat it at its address. |
| `HostDedupOrder.SomeOrderKeeps` | backend/siem_proxy.py:1627-1694 | And every such agent does survive in some order. |
| `HostDedupOrder.MustSurviveSurvives` | backend/siem_proxy.py:1627-1694 | An agent that outranks its stem group, and everyone at its address who is on top of a group, survives in every order. |
| `HostDedupOrder.SomeOrderDrops` | backend/siem_proxy.py:1627-1694 | And any other agent is dropped in some order. |
| `HostDedupTheorems.UnregisteredIsBare` | backend/siem_proxy.py:1598-1611 | A merged agent without a live registry row comes from the alerts scan and has neither platform nor keepalive; any other comes from its registry row. |
| `HostDedupTheorems.RankedAgentsOutliveGhosts` | backend/siem_proxy.py:1653-1694 | An agent with a platform or a keepalive is represented in the end by a registry agent of at least its rank, never by an alerts-only entry. |
| `HostDedupTheorems.GhostKeepsAddressIff` | backend/siem_proxy.py:1664-1694 | An alerts-only entry keeps its address if and only if every agent there has neither platform nor keepalive and it came first. |
| `HostDedupTheorems.BareAgentIsLostToGhost` | backend/siem_proxy.py:1653-1694 | So an enrolled agent with neither is lost to an earlier alerts-only entry with the same address, for every such pair of rows. |
| `HostDedupTheorems.FreshestPlatformSurvives` | backend/siem_proxy.py:1627-1694 | The freshest keepalive among agents with a platform is still there, on an agent with a platform, after both passes. |
| `HostDedupTheorems.FreshestWithoutPlatformIsLost` | backend/siem_proxy.py:1677-1682 | In any dictionary, an agent without a platform is lost to any agent with one that reaches the second pass with the same address, however fresh it is. |
| `HostDedupTheorems.FreshestSurvivesIff` | backend/siem_proxy.py:1627-1694 | The freshest keepalive of all survives both passes if and only if an agent that has it has a platform too, or shares its address with no agent with a platform that reaches the second pass. |
| `HostDedupTheorems.ComposedKeySeparates` | backend/siem_proxy.py:1630-1632 | Two stem keys are equal if and only if stems and platforms are, while no platform contains the separator. |
| `HostDedupTheorems.ComposedKeyCollides` | backend/siem_proxy.py:1630-1632 | With a separator in a platform, different stems and platforms share a key. |
| `HostCache.Database.Refresh` | backend/siem_proxy.py:1577-1927 | A refresh of the portal without agents changes nothing; otherwise it upserts the survivors whose posture is computed, evicts every other row, and returns the number computed. |
| `HostCache.Database.RefreshScheduled` | backend/cysiemstack/host_service.py:326-432 | So does the scheduled one, with its own list. |
| `HostCache.Database.UpsertAll` | backend/siem_proxy.py:1701-1909 | The loop over the survivors applies one upsert per computed posture and counts them. |
| `HostCache.Database.SetTier` | backend/siem_proxy.py:2604-2625 | A tier outside 1 to 3 is invalid, an unknown host is not found, and otherwise only the tier of that row changes. |
| `HostCache.Database.Delete` | backend/siem_proxy.py:1995-2031 | The reserved id is refused without a change; otherwise both registries mark the host removed and its row goes, and the reply says whether anything was there. |
| `HostCache.UpsertedAllAt` | backend/siem_proxy.py:1844-1891 | For each id, whether the upserts leave a row, which tier it has, and that rows of hosts not computed stay as they were. |
| `HostCache.NewHostsAreOfTierThree` | backend/siem_proxy.py:1554 | A host that was not in the cache starts in tier 3. |
| `HostCache.CountIs` | backend/siem_proxy.py:1701-1909 | The number returned is that of the survivors computed. |
| `HostCache.UpsertedAgent` | backend/siem_proxy.py:1844-1904 | A survivor whose posture is computed has a row with its own data and score. |
| `HostCache.RefreshedRows` | backend/siem_proxy.py:1844-1925 | After a refresh that found agents a row exists if and only if its host survived and was computed now or had a row before; failed hosts keep their row, and no surviving row changes its tier. |
| `HostRefreshes.LoadedIsKnown` | backend/cysiemstack/host_service.py:329-371 | Whoever a refresh of either kind loads is enrolled or has an alert in the window. |
| `HostRefreshes.RegisteredAfter` | backend/blueprints/collector/routes.py:156-186 | A host is registered after a step if and only if it enrols, or a collector with a row of that id enrols again, or it was registered and is not the one deleted; heartbeats, telemetry and the re-enrolment of an EDR agent leave the removal flag. |
| `HostRefreshes.DeletedIff` | backend/siem_proxy.py:2008-2020 | A deletion takes any host but 000 out of both registries and the cache, and leaves everything as it is for that one. |
| `HostRefreshes.ReportIs` | backend/blueprints/edr/routes.py:416-426 | What an agent sends changes the rows of its id in its own registry, removal flag aside, and nothing else; a collector that enrols again clears the flag. |
| `HostRefreshes.TierIsSetIff` | backend/siem_proxy.py:2604-2625 | A tier from 1 to 3 is set on a host that has a row, and any other request changes nothing. |
| `HostRefreshes.OutOfTurn` | backend/siem_proxy.py:1694-1927 | Which transactions a refresh of either kind has, and when: upserts one by one or one commit, an eviction after the last write, and giving up, which changes no table. |
| `HostRefreshes.GoneStays` | backend/siem_proxy.py:1577-2031 | A host with no row, no live registry entry and no pending write of any refresh stays so through every step but enrolling it or loading while it has an alert. |
| `HostRefreshes.ReturnsOnlyIfAlertedOrEnrolled` | backend/cysiemstack/host_service.py:326-432 | Over any run of any number of refreshes of both kinds, deletions, tier changes, reports of agents, enrolments and alerts, a gone host has a row again only if it enrolled or some refresh loaded while the window held an alert of it. |
| `HostRefreshes.DeletedReturnsOnlyIfAlertedOrEnrolled` | backend/siem_proxy.py:1995-2031 | So does a host that was deleted while no refresh under way had yet to write it. |
| `HostRefreshes.AlertedIsListed` | backend/cysiemstack/host_service.py:352-371 | A gone host with an alert in the window is on the list of every scheduled refresh, and reaches the IP pass of every refresh of the portal. |
| `HostRefreshes.AlertedHostReturnsWhenScheduled` | backend/cysiemstack/host_service.py:326-432 | So the next scheduled refresh brings it back if and only if its posture is computed. |
| `HostRefreshes.AlertedHostReturnsIff` | backend/siem_proxy.py:1591-1925 | The next refresh of the portal, its posture computed, does so if and only if everyone at its address there has neither platform nor keepalive and comes no earlier. |
| `HostRefreshes.DeletedDuringRefreshReturnsIff` | backend/siem_proxy.py:1703-1921 | Deleted at any point of a running refresh of either kind, a host has a row when that refresh ends undisturbed if and only if the refresh had yet to write it and computes its posture; no alert plays a part. |
| `HostRefreshes.JobsStaySound` | backend/siem_proxy.py:1694-1927 | In every run each refresh under way has a list of distinct agents and a place on it. |
| `HostRefreshes.TierIsKept` | backend/siem_proxy.py:1869-1895 | Over any run that does not set the tier of a host, delete it or evict it, its tier stays, also when its posture fails. |
| `HostRefreshes.JobKeepsItsAgents` | backend/siem_proxy.py:1694-1912 | The list that a refresh works on is fixed when it loads, whatever runs meanwhile. |
| `HostRefreshes.UninterruptedRefresh` | backend/cysiemstack/host_service.py:326-432 | The transactions of a refresh of either kind, uninterrupted, have the effect of its whole method, also while others are under way. |
| `HostRefreshes.WholeIsRefreshed` | backend/cysiemstack/host_service.py:326-432 | So the cache after them is the one that the method of their kind leaves, for any tables, empty lists included. |
| `HostRefreshes.RefreshLeavesSurvivorsOnly` | backend/siem_proxy.py:1911-1925 | At the eviction that ends a refresh, every row belongs to an agent on the list it loaded, whatever ran in between, writes of other refreshes included. |
| `HostRefreshes.NextRefreshRemovesIt` | backend/siem_proxy.py:1911-1925 | So a deleted host is away at the latest when a refresh ends that loaded after the deletion and saw no alert. |
| `HostRefreshes.AlternationResetsTier` | backend/cysiemstack/host_service.py:418-432 | When a refresh of the portal and then a scheduled one find the same tables, a host that the second lists and computes has its old tier if it had a row and the first lists it too, and the default tier otherwise. |
| `AssetLifecycle.StoreCopy.ApplyScan` | backend/cy_asm/cycentra_scan.py:279-338 | A scan gives detected hosts an entry or a new last_seen, drops exactly the listed, undetected ones in state baseline, and reports state, change and dropped hosts as they are; no detected host is reported dropped. |
| `AssetLifecycle.StoreCopy.RecordDetected` | backend/cy_asm/cycentra_scan.py:294-316 | The loop over the detected hosts, in any order, touches those and no other, all by the same first-scan rule. |
| `AssetLifecycle.StoreCopy.DropMissing` | backend/cy_asm/cycentra_scan.py:318-335 | The loop over the baseline list drops exactly the hosts the rule names, and reports when each was last seen. |
| `AssetLifecycle.StoreCopy.Transition` | backend/blueprints/asm/scanner.py:791-847 | A transition is saved if and only if the state is known, the comment is not blank and the table allows the move; otherwise nothing changes. |
| `AssetLifecycle.StoreCopy.SetBaseline` | backend/blueprints/asm/scanner.py:899-971 | With a comment, the listed hosts become baseline, the hosts that left the list new, the list is sorted without repetitions, and nothing else changes. |
| `AssetLifecycle.StoreCopy.PromoteAll` | backend/blueprints/asm/scanner.py:930-944 | Hosts entering the baseline are moved to it with a log entry unless they are there already. |
| `AssetLifecycle.StoreCopy.DemoteAll` | backend/blueprints/asm/scanner.py:947-960 | Hosts leaving the baseline are moved to new with a log entry, whatever their state. |
| `AssetLifecycle.StoreCopy.RemoveFromBaseline` | backend/blueprints/asm/scanner.py:984-1021 | A host that is not listed is not found; a listed one leaves the list and is moved to new. |
| `AssetMoves.WantedMoves` | backend/blueprints/asm/scanner.py:930-944 | After replacing the baseline every wanted host is in state baseline, with exactly one log entry more, from its old state, unless it was there already. |
| `AssetMoves.UnwantedMoves` | backend/blueprints/asm/scanner.py:947-960 | Every listed host that is not wanted is in state new, with exactly one log entry more, from its old state and with the comment; every other entry is unchanged. |
| `AssetMoves.ListIsReplaced` | backend/blueprints/asm/scanner.py:963 | The list holds exactly the wanted hosts, each once and in order. |
| `AssetMoves.BaselineStateIff` | backend/blueprints/asm/scanner.py:930-960 | So a host is in state baseline then if and only if it is wanted, or was in that state without being listed. |
| `AssetMoves.UnrecordedMoves` | backend/blueprints/asm/scanner.py:948-960 | A listed host without a record would get one that starts from baseline, by either way off the list. |
| `AssetMoves.RemovalMoves` | backend/blueprints/asm/scanner.py:992-1019 | Removing one host takes it off the list, leaves the order of the others, and moves it alone, to new with one log entry. |
| `AssetMoves.NamesAre` | backend/blueprints/asm/scanner.py:593-599 | The five names of the states. |
| `AssetMoves.TableIs` | backend/blueprints/asm/scanner.py:593-599 | A request is a known state and an allowed move if and only if the state of the host and the name requested are one of twelve pairs; none leads to dropped. |
| `AssetMoves.TransitionMoves` | backend/blueprints/asm/scanner.py:820-847 | An accepted transition moves its host with one log entry, from new if it had no record, and changes nothing else. |
| `AssetMoves.ScanMoves` | backend/cy_asm/cycentra_scan.py:283-335 | For every host, what a scan does: a first record in state baseline or new, a new last_seen, a drop with its log entry, or nothing. |
| `AssetMoves.ReportedIsDropped` | backend/cy_asm/cycentra_scan.py:318-335 | The hosts that a scan reports as dropped are exactly those whose state it changes. |
| `AssetMoves.ChangesAre` | backend/cy_asm/cycentra_scan.py:294-316 | Which of its three changes a scan reports for a host. |
| `AssetTheorems.ScannedIsSound` | backend/cy_asm/cycentra_scan.py:279-338 | A scan keeps the store sound: distinct listed hosts, each with a record; each log a chain from new to the present state; each logged move legitimate. |
| `AssetTheorems.TransitionedIsSound` | backend/blueprints/asm/scanner.py:820-847 | So does an accepted transition. |
| `AssetTheorems.RebaselinedIsSound` | backend/blueprints/asm/scanner.py:923-971 | So does replacing the baseline. |
| `AssetTheorems.UnlistedIsSound` | backend/blueprints/asm/scanner.py:992-1021 | So does removing one host from it. |
| `AssetTheorems.DemotedIsGood` | backend/blueprints/asm/scanner.py:947-960 | Demoting a listed host keeps its chain, because a listed host has a record and the default entry is never used. |
| `AssetTheorems.ChainNeedsTheRecord` | backend/blueprints/asm/scanner.py:1008-1019 | Removing a host from the baseline keeps its chain if and only if it has a record; the default entry would break it. |
| `AssetTheorems.AfterIsSound` | backend/blueprints/asm/scanner.py:593-599 | Every accepted operation of either writer keeps the store sound; the legitimate moves are the table's, the first-scan and drop moves, and baseline to new and new to new. |
| `AssetTheorems.EverySavedStoreIsSound` | backend/cy_asm/cycentra_scan.py:1260-1349 | Every store ever saved is sound, for every interleaving of loads, failing loads and saves of any number of scans and requests, lost updates included. |
| `AssetTheorems.DroppedByScansOnly` | backend/cy_asm/cycentra_scan.py:319-332 | In every such run an asset in state dropped has as its last log entry a scan's move from baseline. |
| `AssetTheorems.OpsGrow` | backend/blueprints/asm/scanner.py:820-1021 | No sequence of operations on the store itself removes a record, and every log only grows at its end. |
| `AssetTheorems.SavesCompose` | backend/cy_asm/cycentra_scan.py:1260-1349 | In a run of loads and saves where every save follows a successful load of its session with no save in between, the saved stores are the operations composed. |
| `AssetTheorems.RecordsAndLogsGrow` | backend/blueprints/asm/scanner.py:820-1021 | So in such a run no record is ever removed and every log only grows at its end. |
| `AssetTheorems.FailedLoadWipesRecords` | backend/cy_asm/cycentra_scan.py:229-239 | With a load that fails, and reads as a fresh store, the next save wipes out every record although nothing overlaps. |
| `AssetTheorems.OverlapLosesRecords` | backend/blueprints/asm/scanner.py:923-971 | When they overlap, the later save wipes out the records of the earlier one. |
| `AssetTheorems.SaveDropsRecordIff` | backend/cy_asm/cycentra_scan.py:229-258 | Whatever is on disk by then, a save drops a record if and only if neither the copy it started from has the host nor the operation names it. |
| `AssetTheorems.SaveCutsLogIff` | backend/cy_asm/cycentra_scan.py:229-258 | It cuts a log that has only grown since the load if and only if that log has grown, and not by the very entry that is saved. |
| `AssetTheorems.RemovalLeavesTheTableIff` | backend/blueprints/asm/scanner.py:1008-1019 | Removing any listed host with a record logs a move to new, and one outside the table if and only if its state is baseline or new. |
| `AssetTheorems.ListedHostBackAtNew` | backend/blueprints/asm/scanner.py:593-599 | A listed host, in state baseline at first, can be in state new by two allowed transitions. |
| `AssetTheorems.ScanDropsExactly` | backend/cy_asm/cycentra_scan.py:318-332 | A scan changes the state of a recorded host if and only if it is listed, undetected and in state baseline, and then to dropped; no listed host it missed is left in state baseline. |
| `AssetTheorems.RepeatedScanOnlyTouches` | backend/cy_asm/cycentra_scan.py:279-338 | Repeating a scan changes nothing but the time its hosts were last seen. |
| `AssetTheorems.FirstScanHostsAreNeverDropped` | backend/cy_asm/cycentra_scan.py:283-332 | Hosts of the first scan stay in state baseline however many later scans miss them, for they are never listed. |
| `SubdomainHistory.StateFile.Annotate` | backend/cy_asm/cycentra_scan.py:178-208 | Each subdomain found gets the change and the new flag that its record in the previous state calls for. |
| `SubdomainHistory.StateFile.Save` | backend/cy_asm/cycentra_scan.py:147-175 | The saved state is built from the subdomains found, keeping the first_seen of those in the previous state. |
| `SubdomainHistory.SavedAfterAt` | backend/cy_asm/cycentra_scan.py:157-168 | A subdomain is in the saved state if and only if it was found, with the old first_seen if there was one and the new last_seen. |
| `SubdomainHistory.SavedRecordIs` | backend/cy_asm/cycentra_scan.py:157-170 | A saved record has liveness and addresses of the last entry of its name, and the time of the scan. |
| `SubdomainHistory.StoredIffInLastScan` | backend/cy_asm/cycentra_scan.py:157-170 | After any sequence of scans the state holds exactly what the last one found. |
| `SubdomainHistory.StreakExists` | backend/cy_asm/cycentra_scan.py:147-175 | A subdomain found by the last scan has a latest unbroken streak of scans that found it. |
| `SubdomainHistory.FirstSeenIsStreakStart` | backend/cy_asm/cycentra_scan.py:147-175 | Its stored first_seen is the time of the first scan of that streak, whatever came before. |
| `SubdomainHistory.IsNewIff` | backend/cy_asm/cycentra_scan.py:184-205 | A subdomain is called new if and only if the previous saved scan found something but not it. |
| `SubdomainHistory.ChangeIff` | backend/cy_asm/cycentra_scan.py:184-205 | What a scan calls a subdomain, each of the five changes if and only if the last saved scan and the present entry say so. |
| `SubdomainHistory.NothingIsNewAtFirst` | backend/cy_asm/cycentra_scan.py:184-188 | The first scan of all calls nothing new. |
| `SubdomainHistory.FoundBeforeIsNewAgain` | backend/cy_asm/cycentra_scan.py:178-205 | A subdomain found two scans ago and missed by the last is called new, and its first_seen starts again. |
| `SubdomainHistory.SkippedScanForgets` | backend/cy_asm/cycentra_scan.py:822-844 | A scan that skips enumeration saves an empty state, and the next one takes itself for the first. |
| `TamperLockout.TamperGuard.Verify` | agent/cyedr_agent.py:161-210 | One attempt against the policy and the counter file: the verdict and the file it leaves. |
| `TamperLockout.VerdictIs` | agent/cyedr_agent.py:161-210 | What decides each verdict, in terms of the policy, the counter file, the clock and the password, and what each leaves in the file. |
| `TamperLockout.CheckedWithinBudget` | agent/cyedr_agent.py:182-210 | From any counter, wrong attempts between two times reach the password check at most as often as the remaining attempts and the lockouts that fit in allow. |
| `TamperLockout.LockCostsBudget` | agent/cyedr_agent.py:205-209 | A failure at the maximum pays for its check with one lockout. |
| `TamperLockout.AttemptBound` | agent/cyedr_agent.py:182-210 | In any run of wrong passwords in order of time from a cleared file, at most max_attempts plus elapsed time divided by the lockout, rounded down, reach the check. |
| `TamperLockout.CheckedAreSpaced` | agent/cyedr_agent.py:205-209 | Once the maximum is reached, checked attempts come after the lock and are at least one lockout apart. |
| `TamperLockout.FirstFailures` | agent/cyedr_agent.py:204-209 | The first failures are all checked and counted, and the one that reaches the maximum locks for one lockout. |
| `TamperLockout.EveryLockoutIsChecked` | agent/cyedr_agent.py:184-209 | Attempts exactly one lockout apart are all checked: the lock has just run out. |
| `TamperLockout.BoundIsTight` | agent/cyedr_agent.py:182-210 | For every number of lockouts there is one run of wrong passwords from a cleared file, over exactly that time, that meets the bound. |
| `TamperLockout.SuccessRestoresTheBudget` | agent/cyedr_agent.py:199-201 | After one right password outside a lock everything runs as from a cleared file. |
| `Telemetry.NextConserves` | agent/cyedr_agent.py:2057-2081 | No step of a collector or of the sender loses, invents or copies an event. |
| `Telemetry.NothingIsLost` | agent/cyedr_agent.py:2057-2081 | For every interleaving, the events produced are, as a multiset, those queued, held by the sender, accepted and rejected by status; queue and batch stay within their bounds. |
| `Telemetry.FirstInFirstOut` | agent/cyedr_agent.py:2057-2075 | Until a post raises, events are settled in the order in which they were produced. |
| `Telemetry.StuckIff` | agent/cyedr_agent.py:2076-2080 | With a positive batch size, no step at all is possible in a reachable state if and only if the sender is putting events back into a full queue. |
| `Telemetry.NotStuckWithinCapacity` | agent/cyedr_agent.py:2079-2080 | It is not while the unsettled events number at most the capacity. |
| `Telemetry.StuckForever` | agent/cyedr_agent.py:2079-2080 | Once stuck, no step changes anything again. |
| `Telemetry.StuckIsReachable` | agent/cyedr_agent.py:4897 | For every capacity and batch size some run gets stuck, with one unsettled event more than the queue holds. |
| `Telemetry.TelemetrySender.Drain` | agent/cyedr_agent.py:2059-2065 | Undisturbed, the sender takes the oldest events, as many as there are up to its batch size. |
| `Telemetry.TelemetrySender.Send` | agent/cyedr_agent.py:2069-2080 | An answered post settles the batch; a raised one puts it back behind the queue, in order, up to where the queue is full. |
| `Telemetry.DrainIsARun` | agent/cyedr_agent.py:2059-2065 | Draining undisturbed is a run of the sender's steps. |
| `Telemetry.PutBackIsARun` | agent/cyedr_agent.py:2079-2080 | So is putting back. |
| `Telemetry.AnsweredRoundIs` | agent/cyedr_agent.py:2057-2075 | A whole undisturbed round with an answered post settles the oldest events, a batch of them or all there are, in order and with its status. |
| `Telemetry.RaisedRoundIs` | agent/cyedr_agent.py:2057-2081 | One whose post raises settles none and puts the same events behind the others. |
| `Telemetry.EmptyRoundIs` | agent/cyedr_agent.py:2057-2069 | One that finds the queue empty changes nothing. |
| `Telemetry.OutOfTurn` | agent/cyedr_agent.py:2057-2081 | No get beyond a full batch, no timeout with an event there, no post without a batch, and no putting back into a full queue. |
| `DuplicateSuppression.LiveIffRecentlyRecorded` | backend/cysiemstack/dedup.py:60-63 | The store holds a live entry if and only if the history holds a record of the key less than the TTL old. |
| `DuplicateSuppression.StoreRemembers` | backend/cysiemstack/dedup.py:60-63 | After any offers in order of time the store holds the records of the history and nothing else. |
| `DuplicateSuppression.SuppressedIff` | backend/cysiemstack/dedup.py:52-66 | For any times in order and any outages, an event is suppressed if and only if the store answers and an earlier record of its key is less than the TTL old, and the store is written if and only if the history has a record there. |
| `DuplicateSuppression.RecordsAreSpaced` | backend/cysiemstack/dedup.py:62 | Two records of one key are at least the TTL apart. |
| `DuplicateSuppression.CheckIs` | backend/cysiemstack/dedup.py:52-66 | What one check does to the store and answers, for every TTL, expiry and way the call can end. |
| `DuplicateSuppression.KeySeparates` | backend/cysiemstack/dedup.py:47-75 | Two events have one key if and only if vendor, entity, description and minute agree, while names and times do not contain the separator. |
| `DuplicateSuppression.SameMinuteIff` | backend/cysiemstack/dedup.py:47-75 | For times of at least sixteen characters, if and only if the first sixteen agree along with vendor, entity and description. |
| `DuplicateSuppression.KeyCollides` | backend/cysiemstack/dedup.py:47-49 | With a separator in an entity's name, different events share a key. |
| `DuplicateSuppression.Bridge.CheckDuplicate` | backend/cysiemstack/dedup.py:52-66 | One check: the answer and the store it leaves, for every way the call can end. |
| `DuplicateSuppression.Bridge.Deduplicate` | backend/cysiemstack/connector_bridge.py:268-279 | The loop over a batch checks each envelope against the store its predecessors left and keeps, in order, what is not a duplicate. |
| `DuplicateSuppression.Bridge.PushOneByOne` | backend/cysiemstack/connector_bridge.py:299-305 | The fallback queues what single pushes deliver and counts what they acknowledge. |
| `DuplicateSuppression.Bridge.PushEvents` | backend/cysiemstack/connector_bridge.py:252-308 | A batch of an unknown vendor changes nothing; otherwise the store, the queue and the count returned are those of the passed envelopes and of how the queue took them. |
| `DuplicateSuppression.VerdictsFollowHistory` | backend/cysiemstack/connector_bridge.py:268-275 | Each verdict of a batch is the history's, earlier envelopes of the same batch included. |
| `DuplicateSuppression.BatchIsSplit` | backend/cysiemstack/connector_bridge.py:268-279 | What passes and what is suppressed are in-order sublists of what was offered, and together all of it. |
| `DuplicateSuppression.CountedIsQueued` | backend/cysiemstack/connector_bridge.py:290-305 | The count returned never exceeds what reached the queue, and equals it when no reply was lost; single pushes keep the order. |
| `DuplicateSuppression.OutcomeIs` | backend/cysiemstack/connector_bridge.py:284-306 | Exactly what each way the queue takes a batch leaves in it, in order, and the number returned. |
| `DuplicateSuppression.RetryAfterLostPush` | backend/cysiemstack/connector_bridge.py:268-305 | An event recorded but not queued, offered again to a queue that works, reaches it if and only if its record has reached the TTL or the store does not answer; else it is lost both times. |
| `ColdStorage.InsertKeeps` | backend/cysiemstack/clickhouse_store.py:108-117 | Inserting, also during an export, keeps every row accounted for and what was selected unchanged. |
| `ColdStorage.WriteKeeps` | backend/cysiemstack/clickhouse_store.py:137-139 | Writing the file archives exactly the selected rows and loses none but those of a file it replaces. |
| `ColdStorage.DeleteKeeps` | backend/cysiemstack/clickhouse_store.py:141-144 | Deleting removes no row that is neither archived nor younger than the cutoff, in whole seconds, of its select. |
| `ColdStorage.RunIsConsistent` | backend/cysiemstack/clickhouse_store.py:120-150 | In every run of inserts, exports, deletes and failures, with any two clocks, every inserted row is hot, archived, in the gap or in a replaced file that its successor lacks. |
| `ColdStorage.RunIsTimely` | backend/cysiemstack/clickhouse_store.py:129-144 | In every run the rows of a file last written in the present second of the database are all still hot, or no export is under way and nothing is left to select in that second. |
| `ColdStorage.RewriteSelectsAgain` | backend/cysiemstack/clickhouse_store.py:129-139 | So an export that writes over a file of the same second of the database has selected all its rows again. |
| `ColdStorage.NothingReplaced` | backend/cysiemstack/clickhouse_store.py:129-139 | Hence no row is ever replaced while files of one name are written in one second of the database. |
| `ColdStorage.LostIsTheGap` | backend/cysiemstack/clickhouse_store.py:120-150 | Then a row is lost if and only if it is in the gap. |
| `ColdStorage.OneClockLosesTheGapOnly` | backend/cysiemstack/clickhouse_store.py:120-150 | In particular in every run whatever, if the archive host shows the time of the database. |
| `ColdStorage.GapIff` | backend/cysiemstack/clickhouse_store.py:129-144 | A row is in the gap if and only if some delete removed it whose select came in an earlier second and had a cutoff at or before its ingest time. |
| `ColdStorage.EqualCutoffsLoseNothing` | backend/cysiemstack/clickhouse_store.py:129-144 | When every delete comes in the second of its select as well, nothing is lost, whatever fails. |
| `ColdStorage.StepMakesNoCopies` | backend/cysiemstack/clickhouse_store.py:129-144 | No step but a failure makes a second copy of a row that outlasts its export. |
| `ColdStorage.NoFailureNoCopies` | backend/cysiemstack/clickhouse_store.py:120-150 | So in every run without failures each row is in one place whenever no export is under way. |
| `ColdStorage.WriteLosesIff` | backend/cysiemstack/clickhouse_store.py:138-139 | Writing a file loses a row if and only if it replaces the only file that holds it and the row is not selected again, which takes two clocks. |
| `ColdStorage.DeleteLosesIff` | backend/cysiemstack/clickhouse_store.py:141-144 | Deleting loses a row if and only if the row is hot and its ingest time lies from the cutoff of the select to before that of the delete, both in whole seconds. |
| `ColdStorage.LostIff` | backend/cysiemstack/clickhouse_store.py:120-150 | In every run, whatever the two clocks show, a row is lost if and only if some step of it was such a write or such a delete. |
| `ColdStorage.WholeSkewTellsSeconds` | backend/cysiemstack/clickhouse_store.py:138-139 | If the clock of the archive host is ahead of the database's by a fixed whole number of seconds, files of one name are written in one second of the database. |
| `ColdStorage.ClocksApartLoseRows` | backend/cysiemstack/clickhouse_store.py:138-139 | If it is ahead by a fraction of a second, two exports can lose the rows of the first outside the gap, for any age. |
| `ColdStorage.SkewIsSafeIff` | backend/cysiemstack/clickhouse_store.py:120-150 | So a fixed skew leaves the gap as the only loss in every run if and only if it is a whole number of seconds. |
| `ColdStorage.EventStore.ExportAndPurge` | backend/cysiemstack/clickhouse_store.py:120-150 | One export, for any readings of the two clocks and any failure, is a run of those steps and returns the number of rows archived, or 0. |
| `MarkedBlocks.ClearBlocks` | agent/cyedr_agent.py:3012-3017 | The scan from left to right removes the blocks of the non-greedy pattern, with one line break after each, and keeps the rest. |
| `MarkedBlocks.ClearedIs` | agent/cyedr_agent.py:3012-3017 | What the substitution makes of any text: the text itself without a begin marker that an end marker follows, and otherwise what is before the leftmost begin marker, and the same again behind the nearest end marker and one line break. |
| `MarkedBlocks.BeginIsFound` | agent/cyedr_agent.py:3012-3026 | In text without a begin marker the first one is that of the block written behind it, also if the text ends in part of a marker. |
| `MarkedBlocks.EndIsFound` | agent/cyedr_agent.py:3020-3025 | Behind it the first end marker is the block's own, because its lines have no upper case. |
| `MarkedBlocks.WrittenBlockIsCleared` | agent/cyedr_agent.py:3012-3026 | Clearing after writing leaves the text with two line breaks. |
| `MarkedBlocks.LeftoverMarkerSwallows` | agent/cyedr_agent.py:3012-3026 | A begin marker left in the text makes the next clearing take text away. |
| `MarkedBlocks.TrimmingKeepsMarkers` | agent/cyedr_agent.py:3026 | Trimming trailing line breaks neither removes nor makes a begin marker. |
| `MarkedBlocks.ClearingUndoesWritingIff` | agent/cyedr_agent.py:3012-3026 | Clearing what was written gives the text outside the blocks back, up to trailing line breaks, if and only if that text holds no begin marker. |
| `MarkedBlocks.LastWritingWinsIff` | agent/cyedr_agent.py:3012-3026 | A second writing has the effect of the second alone on the same condition. |
| `HostsSinkhole.HostsFile.UpdateSinkhole` | agent/cyedr_agent.py:3003-3030 | An update leaves the unmanaged text, followed by one block of the sorted domains if there are any, with the line ends of the system it runs on. |
| `HostsSinkhole.WriteLines` | agent/cyedr_agent.py:3021-3024 | The loop writes one line for each domain, and one for its www name unless it has that prefix. |
| `HostsSinkhole.DomainLinesHaveNoUpperCase` | agent/cyedr_agent.py:3021-3024 | Whatever strings are listed, the lines written for them have no upper-case letter. |
| `SinkholeLines.BlockIs` | agent/cyedr_agent.py:3021-3024 | How often a host is on the lines of the block: once if it is a listed domain, up to case and spaces, and once if it is the www name of a listed domain without that prefix. |
| `SinkholeLines.SunkIff` | agent/cyedr_agent.py:3021-3024 | A line is in the block if and only if it sinks such a host to 0.0.0.0. |
| `SinkholeLines.NewTextIs` | agent/cyedr_agent.py:3011-3026 | The text written, for any domains: the unmanaged text without trailing newlines, an empty line, and the lines between the two markers. |
| `SinkholeLines.UpdatedFileIs` | agent/cyedr_agent.py:3003-3030 | When no domain holds a line break, the file is read back, on Windows or not, as exactly those lines. |
| `HostsSinkhole.WrittenIsRead` | agent/cyedr_agent.py:3006-3030 | Written and read again, on Windows or not, an updated text is the one that the domain lines as they are read back would have made; so line ends, and carriage returns in domains, do no harm below. |
| `Text.StoredIsRead` | agent/cyedr_agent.py:3006-3030 | Text without carriage returns is read as it was written, whether or not newlines are stored as two characters. |
| `Text.StoredIsInjective` | agent/cyedr_agent.py:3030 | Different texts are stored differently. |
| `HostsSinkhole.ClearingUndoesUpdatingIff` | agent/cyedr_agent.py:3003-3030 | For any file and domains, clearing after an update gives the unmanaged text back up to trailing line breaks if and only if that text holds no begin marker. |
| `HostsSinkhole.LastUpdateWinsIff` | agent/cyedr_agent.py:3003-3030 | Updating with one list and then another equals updating with the other, if and only if the same holds. |
| `HostsSinkhole.UpdateIsIdempotent` | agent/cyedr_agent.py:3003-3030 | On a file without a begin marker updating twice is updating once, and clearing restores the file as it is read, up to trailing line breaks. |
| `HostsSinkhole.OnlyTheSetMatters` | agent/cyedr_agent.py:3021 | Two lists with the same domains, whatever their order, case, spacing and repetitions, give the same file. |
| `Text.SortedSetIsAscending` | agent/cyedr_agent.py:3021 | Sorting a set of strings yields the same strings, each once, in order. |
| `Text.AscendingIsUnique` | agent/cyedr_agent.py:3021 | There is only one way to write a set of strings in order. |
| `DotEnv.CollectLastWins` | CYSIEM-Config/lists/sync_misp_cache.py:72-83 | The loop over the lines computes the last-wins specification, for any way of parsing a line. |
| `DotEnv.ReadLastWins` | CYSIEM-Config/lists/sync_misp_cache.py:66-86 | The reader returns exactly the non-empty keys that some line of the file assigns, each with the value of the last line that does. |
| `DotEnv.CollectFirstWins` | backend/cy_asm/config.py:31-39 | The loop over the lines, with its early end at an empty key, computes the first-wins specification. |
| `DotEnv.ReadFirstWins` | backend/cy_asm/config.py:27-44 | The reader fails if and only if some line is the first to assign a key that the environment lacks and the key is empty or key or value holds a zero character; otherwise it keeps the environment and adds exactly the other keys assigned, each with the value of the first line that does. |
| `Quotes.UnquotedIs` | CYSIEM-Config/lists/sync_misp_cache.py:81 | A value is read by a relation on its characters: spaces come off both ends, then all double quotes, then all single quotes. |
| `Quotes.AssignmentIff` | CYSIEM-Config/lists/sync_misp_cache.py:73-83 | A line is read as an assignment of a value to a key if and only if, trimmed, it is no comment, the key is what stands before its first equals sign, trimmed, and the rest reads as the value. |
| `Quotes.NoAssignmentIff` | backend/cy_asm/config.py:31-35 | It is skipped if and only if, trimmed, it is empty, begins with a hash or has no equals sign. |
| `Quotes.QuotedLineIsRead` | CYSIEM-Config/lists/sync_misp_cache.py:73-83 | A key and a value without spaces or quotes at its ends, written with either kind of quotes or none and with any spaces around both, are read as they are. |
| `Quotes.FailsIff` | backend/cy_asm/config.py:36-39 | The first-wins reader fails if and only if some line is the first to assign a key that is not set, and the key is empty or key or value holds a zero character. |
| `Quotes.BreaksAre` | backend/core/kv_secrets.py:592 | Which characters break a line for either reader. |
| `Quotes.KeyOfIs` | backend/core/kv_secrets.py:596 | The rewriter takes what stands before the first equals sign, trimmed, for the key of a line, or the whole line if there is none. |
| `DotEnv.SplitOfJoin` | backend/core/kv_secrets.py:607 | Lines that were joined by newlines are read back as they were, by either way of breaking lines. |
| `DotEnv.SplitsAgree` | CYSIEM-Config/lists/sync_misp_cache.py:72 | Text without the rarer separators has the same lines for both readers. |
| `KvSecrets.Update` | backend/core/kv_secrets.py:594-605 | Each line with a key to write is replaced, keys not seen are appended once, and every other line stays. |
| `KvSecrets.Rewrite` | backend/core/kv_secrets.py:594-600 | The first loop rewrites lines in place and records the keys it has seen. |
| `KvSecrets.Missing` | backend/core/kv_secrets.py:602-605 | The second loop writes the keys that the file did not have. |
| `KvSecrets.Process.PullToEnv` | backend/core/kv_secrets.py:588-618 | The file is the old one rewritten with the fetched environment, and the process environment ends as it began. |
| `KvSecrets.Process.Restore` | backend/core/kv_secrets.py:613-618 | Restoring the saved keys, or removing those that had no value, gives the old environment back. |
| `DotEnv.LastWinsIs` | CYSIEM-Config/lists/sync_misp_cache.py:72-83 | The last-wins reader has a key if and only if a line assigns it and it is not empty, with the value of the last such line. |
| `DotEnv.FirstWinsIs` | backend/cy_asm/config.py:31-39 | The first-wins reader fails if and only if some line is refused, that is the first to assign a key that is not set and cannot be set as it says. |
| `DotEnv.FilledIs` | backend/cy_asm/config.py:31-39 | What it fills in: the environment stays, and each other key that a line assigns has the value of the first such line. |
| `KvSecretsTheorems.OtherKeysStay` | backend/core/kv_secrets.py:594-605 | A key that is not written is assigned by the same lines in the same places after a pull. |
| `KvSecretsTheorems.WrittenKeysAgree` | backend/core/kv_secrets.py:594-605 | A key that is written is assigned by some line after a pull, and by all lines that assign it with the same value. |
| `KvSecretsTheorems.LastWinsAfterPull` | backend/core/kv_secrets.py:594-605 | For any parser that agrees with the rewriter on keys, the last-wins reader returns the written values and for every other key what it did before. |
| `KvSecretsTheorems.FirstWinsAfterPull` | backend/core/kv_secrets.py:594-605 | The first-wins reader fails after a pull if and only if a line of another key is refused, and otherwise returns exactly what it fills in from the old lines with the written values of keys that are not set on top. |
| `KvSecretsTheorems.SecondPullChangesNothing` | backend/core/kv_secrets.py:594-605 | Rewriting a rewritten list of lines with the same values changes nothing, also if the lines are read back changed, as long as written lines keep their keys and old lines come back as they are. |
| `SecretRotation.AssignmentOfWritten` | backend/core/kv_secrets.py:598 | Either reader parses a written line as its key and the value, trimmed and unquoted. |
| `SecretRotation.ParserAndRewriterAgree` | backend/core/kv_secrets.py:596 | In every line that is an assignment to a reader, the rewriter finds the same key, whatever spaces surround it. |
| `SecretRotation.LastWinsReaderAfterPull` | CYSIEM-Config/lists/sync_misp_cache.py:66-86 | After a pull of one-line values into any file, with its duplicates, comments and blank lines, the last-wins reader returns every written value and the old value of every other key. |
| `SecretRotation.FirstWinsReaderAfterPull` | backend/cy_asm/config.py:21-47 | For values without a line end but at most one final carriage return, and any old file: exactly when the first-wins reader fails after a pull, and that it returns otherwise every written value, and for every other key what the old file assigns when broken into lines as the rewriter does. |
| `SecretRotation.NewlinesOnlyKeepOtherKeys` | backend/cy_asm/config.py:21-47 | So on an old file with no line break but line ends it returns what it returned before, with the written values on top. |
| `SecretRotation.FormFeedRevealsAKey` | backend/core/kv_secrets.py:592 | With a form feed in the old file it finds a key after the pull that it did not find before. |
| `SecretRotation.SecondPullLeavesTheFileIff` | backend/core/kv_secrets.py:588-607 | Whatever the old file, a second pull of the same values leaves the file as it is if and only if each written value is one line, or one line followed by one final carriage return. |
| `SecretRotation.SecondPullGrows` | backend/core/kv_secrets.py:592-607 | A value with any other line break makes the second pull write a file of more lines, for its own line is found in pieces. |
| `LineCounts.FileIsCounted` | backend/core/kv_secrets.py:592 | A written file has as many lines as it has breaks when it is read. |
| `LineCounts.JoinedCounts` | backend/core/kv_secrets.py:592-607 | That is at least one for each line written, and more if one of them has a break inside. |
| `LineCounts.JoinedIsTranslated` | backend/core/kv_secrets.py:592-607 | Lines without carriage returns but at their ends are read back one for one, without those. |
| `SecretRotation.FetchedValueIsReadIff` | backend/core/kv_secrets.py:566-607 | Whatever value is fetched for a key, the last-wins reader returns it if and only if it holds no line break, carriage return included, and trimming and unquoting do not change it. |
| `SecretRotation.FetchedValueIsReadFirstIff` | backend/cy_asm/config.py:21-47 | The first-wins reader does, for a key that its process does not set, if and only if the value holds no newline or carriage return, trimming and unquoting do not change it, and no line of another key makes it fail. |
| `SecretRotation.UnfetchedKeyTakesTheProcessValue` | backend/core/kv_secrets.py:588-605 | For a key that the vault does not return, a pull changes what is read if and only if the key is in the map, set in the running process, and read differently before. |
| `Posture.FloorIsRounding` | backend/cysiemstack/host_service.py:260 | Roundings as the scores assume them exist; rounding down is one. |
| `Posture.ComputePosture` | backend/cysiemstack/host_service.py:81-260 | The scheduled refresher computes checks, component scores and composite as specified, with no adjustment when the acknowledgements cannot be read. |
| `Posture.ScoreChecks` | backend/cysiemstack/host_service.py:91-169 | Checks come from the agent or else from recent alerts, acknowledged failures count as passed, and the rate is that of the result. |
| `Posture.FullScoreIff` | backend/cysiemstack/host_service.py:138-143 | There is no vulnerability score if and only if nothing is known, and it is 100 if and only if low ones only are. |
| `Posture.ZeroScoreIff` | backend/cysiemstack/host_service.py:138-143 | It is 0 if and only if critical, high and medium ones come in one of four combinations, at least four, four and two of them. |
| `Posture.MoreScoresLess` | backend/cysiemstack/host_service.py:138-143 | Once some are known, more vulnerabilities of any severity never raise it. |
| `Posture.ComputePostureSync` | backend/siem_proxy.py:1709-1831 | The portal's refresher, written separately throughout, computes the same scores as the scheduled one without acknowledgements. |
| `PostureCosts.CompositeIs` | backend/cysiemstack/host_service.py:81-260 | All components at once: what checks, vulnerabilities of each severity, acknowledgements, risk and malware cost in points, when known and when not, with their bounds. |
| `PostureCosts.ComponentsAre` | backend/cysiemstack/host_service.py:91-176 | The pass rate and the vulnerability score that go with it. |
| `PostureCosts.ChecksAre` | backend/cysiemstack/host_service.py:91-169 | The checks of the agent count, or else those of recent alerts, and each acknowledged failure has passed. |
| `Posture.GradesDifferIff` | backend/siem_proxy.py:866-872 | The portal's grade of a score is exactly one below the scheduled refresher's in three bands, and the same outside them. |
| `PostureCosts.GradesAre` | backend/cysiemstack/host_service.py:64-70 | The five thresholds of each refresher. |
| `Posture.CompositeInRange` | backend/cysiemstack/host_service.py:81-260 | The composite is between 0 and 100 points for all inputs, and acknowledging keeps passed plus failed. |
| `Posture.UnknownHostIsB` | backend/cysiemstack/host_service.py:243-260 | A host of which nothing is known scores exactly 72.5 points and is graded B by both refreshers. |
| `Posture.CleanHostIsPerfect` | backend/cysiemstack/host_service.py:243-260 | A host whose checks all pass, without risk or malware, scores 100 points if some low vulnerability is known, and only 87.5 if none is. |
| `Posture.AcksNeverHurt` | backend/cysiemstack/host_service.py:145-176 | More acknowledgements never lower the composite or worsen the grade. |
| `Posture.SyncNeverAbove` | backend/siem_proxy.py:1709-1831 | The portal's composite and grade of a host are never better than the scheduled refresher's. |
| `Posture.MoreVulnerabilitiesNeverHelp` | backend/cysiemstack/host_service.py:138-143 | More vulnerabilities never raise the composite of a host that has some. |
| `Posture.FirstVulnerabilitiesMayHelp` | backend/cysiemstack/host_service.py:251-260 | For a host without any, the first ones raise the composite if and only if they cost less than 50 points, and lower it if and only if they cost more; low ones alone raise it by over 12 points. |
| `Posture.OverallScore` | backend/cysiemstack/host_service.py:663-690 | The loop yields the rounded tier-weighted mean of the hosts that have a score, and nothing if none has. |
| `PostureCosts.TiersCountAs` | backend/cysiemstack/host_service.py:663-676 | In both overall scores a host of tier 1 counts as three of a tier other than 1 and 2, and one of tier 2 as two. |
| `PostureCosts.PlainMean` | backend/cysiemstack/host_service.py:663-690 | Without such tiers the overall score is the mean of the scores there are, and the aggregate divides their sum by the number of hosts. |
| `Posture.OverallWithinScores` | backend/cysiemstack/host_service.py:663-690 | With at least one scored host the overall score lies between the least and the greatest host score. |
| `Posture.AggregateNeverAbove` | backend/siem_proxy.py:1390-1410 | Before rounding, the portal's aggregate never exceeds that mean, and equals it if and only if no score is null or every score is zero. |
| `Posture.PortalNeverAbove` | backend/siem_proxy.py:1390-1421 | So the score that the portal returns never exceeds the one that the other side returns, and is the same if no score is null, for any rounding that depends on the value rounded alone. |
| `PostureCosts.PortalOfNone` | backend/siem_proxy.py:1404-1410 | When no host has a score the portal returns zero. |
| `Posture.FloorRoundsByValue` | backend/siem_proxy.py:1421 | There are such roundings; rounding down is one. |

## Left out

- Routing, sessions, roles, replies beyond accepted or refused, and the counts in them.
- SQL, Redis, Kafka and ClickHouse clients, bcrypt and SHA-256: tables, maps, queues and a given check; no hash collisions. Publishing to Kafka and the normalizers of the vendors are not modelled.
- Text beyond ASCII. Reading a file in text mode translates its line ends. Writing one stores newlines as two characters on Windows, where the agent runs too; the backend, which writes the `.env` file, runs on Linux.
- Keepalives, which the code compares as ISO strings, are times; an absent one is least. The liveness error case "unknown" for a registry row is not modelled.
- A refresh reads the registries and the alerts in two or three statements; the model loads them at one moment. The scheduled refresher's upserts take effect at its commit, as their row locks make it look, and a posture that fails on a concurrent change counts as not computed; that it leaves out columns it finds unchanged is not modelled.
- The cache columns other than agent, score and tier, and how a registry row finds its agent when it enrols again.
- AssetLifecycle.StoreCopy.SetBaseline: does not model the time, author and comment kept with the list, nor a body whose assets are not a list.
- AssetLifecycle.StoreCopy.ApplyScan: does not model guest scans, which store nothing, nor the order of the dropped hosts, which is that of a set.
- Failing, partial and torn saves of any file, and the mapping from user names to paths.
- TamperLockout.AttemptBound: does not model attempts that overlap in time or a policy that changes during the run; a counter file that cannot be written is not modelled.
- Stopping the sender, and a server that accepts a batch although its post raises.
- Telemetry.TelemetrySender.Drain: is proved with nobody else at the queue; the interleavings are those of the step system.
- Partial archive files and ClickHouse deletes that take effect later; row ids are unique. The age is a fixed time; a change of daylight saving in the time zone of the database, which counts back in days, is not modelled, nor is a clock of the database that goes back.
- ColdStorage.NoFailureNoCopies: after a failure between writing and deleting, the next export archives the same rows again; the model allows that and no more is claimed of it.
- Permission errors of the hosts file, its fallback writers, and flushing the DNS cache.
- SecretRotation.LastWinsReaderAfterPull: keys are identifiers, as all keys of the maps are; what else a value of several lines assigns is left open beyond `FetchedValueIsReadIff`.
- The vault clients and the count that a pull returns; the fetched values are a parameter whose keys are keys of the map.
- Severities that differ in case only, whose counts overwrite each other; the counts per severity are given.
- Floating point: scores are whole tenths, and rounding is any monotone function that is exact on tenths. The sums of the component breakdowns over all hosts are not modelled.
- The licence ladder, finding states, trigger tables, reports, mail, the portal and the tray: one branch settles each of them.
