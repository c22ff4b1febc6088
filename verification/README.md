# The failover protocol of solana-validator-ha, modelled and proved

N validator nodes share one active identity. Each of them polls the gossip network, counts
the samples that show no leader, waits for a time that depends on its rank, looks again, and
then promotes or demotes itself. This project models that protocol in Dafny and proves what
it is meant to guarantee: with the delinquency bypass off, no takeover without a full run of
leaderless samples; no role
command while a leader is voting, at most one winner of a round, and why.

`dafny verify dfyconfig.toml` checks the whole project.

## How the model is laid out

One node:

- `Gossip.dfy`: the gossip state. Class `State` refreshes as the program does, step by step;
  every method is proved against a function on its abstract value `View`.
- `RefreshMeaning.dfy`: what a refresh means, told without its loop, by the *set* of readings
  of the node list.
- `VoteCache.dfy`: the cache of vote account keys never changes a verdict, and when the
  delinquency fast path is sound.
- `Anomalies.dfy`: exactly when the undeclared flag depends on the order of the node list, exactly
  when one refresh both raises the delinquency flag and resets the count, and how a moved vote
  key counts a leader out.
- `Health.dfy`: the local health streak.
- `FailoverConfig.dfy`: defaults, validation, ranks by priority.
- `Node.dfy`: class `Manager` with the decision cycle and the two polling loops, proved
  against functions on `NodeState`; `Initialize` builds it from validated settings.
- `NodeProperties.dfy`, `RoleGating.dfy`, `Polling.dfy`: what therefore holds of every cycle
  and of every run.
- `HealthOverRuns.dfy`: the health streak over whole runs, of one node and of the cluster, and what
  it says about promotions.

The cluster:

- `Cluster.dfy`: N nodes as a step system. A cycle without a delay is one move; a cycle with a
  takeover delay is two, and others may move in between. Health samples arrive before every
  cycle, sleeps may overshoot, and leaders may fall at any time. The network is an assumption on
  the answers (`Fair`, `NoPhantoms`).
- `Takeover.dfy`: of any two promotions of any run, the later one, if its node could look, starts
  before the earlier one is sure to be visible, or after its node has fallen.
- `Round.dfy`: the single winner of a round, by rank, by priority, by one assignment of
  priorities that all settings follow, and by IP.
- `RoundExample.dfy`: three nodes, from the start of the program, meet every hypothesis.

Supporting structures: `RpcClient.dfy` (URL failover), `Ring.dfy` (sample buffer), `Replay.dfy`
(merging recordings), `Ordering.dfy` (sorting and ranking), `Durations.dfy` (Go's rounding).

## How the world enters

Every remote call is an input of its own, a value or a failure. An entry of the cluster node
list carries the answers that judging this very entry may ask for, so two entries of one refresh
may be judged by different answers. Times and durations are integers (nanoseconds). Hooks and
role commands are outcomes with a duration. Go's map iteration is an arbitrary choice of a
key, and `sort.Slice` is any sorted permutation. Every refresh and every role command leaves an
event in a ghost trace, and the theorems about runs speak of that trace.

## What the theorems assume, and why

- *Steady answers.* With `delinquency_bypass` on, two entries under the active key judged by
  different answers can raise the delinquency flag and show an active peer in one refresh.
  `Anomalies.SplitsExactly` says when; `Anomalies.UnsteadyAnswersSplit` is an instance. Where this
  matters the theorems ask for `Trusted`: the bypass is off, or the entries under the active key
  of the deciding refresh are judged by the same answers, filtered honestly.
- *Threshold 2 or more*, for the exact number of confirmation cycles. With threshold 1 and fast
  polling on, the confirmation loop also runs while a leader is healthy
  (`Polling.ThresholdOneKeepsConfirming`). `Polling.ConfirmationEndsExactly` says for every
  threshold which cycles end the loop.
- *Truthful answers*, for the transparency of the cache and whatever rests on it. Filtered answers
  are the unfiltered one, filtered; a vote account keeps its identity for the whole run; an
  identity has one vote account at a time. `VoteCache.CacheMisleadsExactly` says, for any cache
  and any table, when the cached lookup gives another verdict. If accounts keep their identity,
  what is left is a second account that hides a delinquency (`VoteCache.CacheHidesExactly`). If
  they do not, a key that has moved to another identity is never evicted, and a leader that
  votes under a new one is counted out (`Anomalies.MovedKeyCountsOut`,
  `Anomalies.MovedAccountExample`).
- *A successful second look.* A node whose refresh after the delay fails goes on to promote
  itself, whoever leads (`Takeover.BlindWakersPromote`). Separation is therefore claimed for every
  promotion whose own deciding look was successful, and in a round all looks after a delay are.
- *One attempt each.* A node whose attempt at T failed tries again at T plus one poll interval,
  just when the node of rank 1 wakes (`RoundExample.RetryMakesTwoWinners`). Uniqueness is stated for
  a round, in which every node attempts at most once; `Takeover.TakeoversAreSeparated` needs no
  such restriction.
- *Visibility.* A promoted node is visible as a voting leader from `latency` after its command
  was done until it falls: crashes, steps down or is cut off, which may happen at any time, in a
  move of its own (`Takeover.FallenMeansFell`, `Takeover.FallsAreMarked`). For
  the single winner, no leader falls during the round and nobody is visible who was not
  promoted.
- *Health samples in order of time*, where a theorem says that an outage is long past.

## Where code and documentation disagree

The model follows the code in each case.

- The comment at internal/gossip/state.go:127-128 says that a failed node list makes its
  consumer check for failovers. The code clears the peers and the flags but neither counts nor
  resets (internal/gossip/state.go:130-136), so failed refreshes alone never reach the threshold
  (`NodeProperties.CountOverRuns`).
- The repository's README.md:279 offers `unhealthy_grace_count: 0` to disable the grace. `SetDefaults` turns 0
  into 1 (internal/config/failover.go:251-253), so it cannot be asked for
  (`FailoverConfig.Failover.SetDefaults`).
- The repository's README.md:470 speaks of a low vote account balance. The code reads the balance of the
  identity (internal/gossip/state.go:522).
- The comment at internal/gossip/state.go:456-460 says that the cache entry is cleared after a key
  rotation. It is cleared only if the cached key has left the table, not if it has moved to
  another identity (`Anomalies.MovedKeyCountsOn`).
- The comment at internal/recording/replay.go:116 calls the sort stable. `sort.Slice` is not; there is
  one timeline exactly if no two different entries tie (`Replay.OneTimelineExactly`), and
  `Replay.TwoTimelinesExample` is a recording with two timelines and two downtimes.
- `Validate` says the poll interval must be greater than zero but rejects only zero
  (internal/config/failover.go:57; `FailoverConfig.NegativeIntervalPasses`). `Node.Initialize` asks for
  a positive one.

## Model

| member | source | states |
|---|---|---|
| Gossip.State.Refresh | internal/gossip/state.go:113-333 | the whole new gossip state after one answer of getClusterNodes: a failed answer forgets the peers and keeps the count, a successful one replaces everything |
| Gossip.State.IsNodeActiveAndVoting | internal/gossip/state.go:461-594 | verdict, delinquency flag and cache after judging one entry: failed calls are forgiven, a low balance is forgiven, a stale key is evicted and looked up again |
| Gossip.State.CacheVotePubkey | internal/gossip/state.go:447-454 | upserts one key and leaves every other alone |
| Gossip.State.PeerNameFromIP | internal/gossip/state.go:664-671 | finds a name exactly for declared IPs, and the right one |
| Gossip.State.GetSortedIPs | internal/gossip/state.go:437-444 | the recorded IPs, each once, in string order |
| Gossip.State.PeerIPRankMap | internal/gossip/state.go:392-398 | every recorded IP is mapped to the number of recorded IPs before it |
| Gossip.State.SeesIP | internal/gossip/state.go:618-625 | true exactly if some recorded peer has the IP |
| Gossip.State.SeesPeersOtherThan | internal/gossip/state.go:639-647 | true exactly if some recorded peer has another IP |
| Gossip.State.GetActivePeer | internal/gossip/state.go:628-635 | returns a recorded active peer exactly if there is one |
| Gossip.SortedPositionsAreRanks | internal/gossip/state.go:392-398 | IP ranks are a bijection onto 0..n-1 in string order |
| Gossip.LowerRankExactly | internal/gossip/state.go:392-398 | of two recorded IPs the one has the lower rank exactly if, at the first position at which they differ, it has ended or has the smaller character |
| RefreshMeaning.ScanMeaning | internal/gossip/state.go:147-281 | the loop over the nodes, after any prefix, has gathered what the readings of that prefix say |
| RefreshMeaning.RefreshRefinesReadings | internal/gossip/state.go:147-325 | a peer is recorded, and recorded active, exactly when somebody at its IP is read so; the missing IPs are the rest; the count is reset exactly when anybody leads |
| RefreshMeaning.RecordedPeerIsShown | internal/gossip/state.go:202-219 | every recorded peer has the key and the IP of an entry, is active exactly under the active key, and recent exactly if its IP was missing before; a peer recorded as not active is the last entry at its IP |
| RefreshMeaning.LastOutsideLeaderIsRecorded | internal/gossip/state.go:157-174 | the undeclared leader on record is the last one in the list, in full |
| RefreshMeaning.OrderDoesNotMatter | internal/gossip/state.go:147-325 | node lists with the same readings give the same roles, missing IPs, count and delinquency flag, and tell alike whether anybody leads from outside |
| RefreshMeaning.UndeclaredFlagExactly | internal/gossip/state.go:427-429 | the undeclared flag is up exactly if somebody leads from outside and the last such entry has a host |
| Anomalies.UndeclaredFlagIgnoresOrderExactly | internal/gossip/state.go:153-178 | with truthful answers every permutation gives the same undeclared flag exactly if the outside leaders all have an empty host or none has |
| Anomalies.OrderDecidesTheFlag | internal/gossip/state.go:149-171 | two undeclared leaders, one without a host: one order raises the flag, the other does not |
| Anomalies.SplitsExactly | internal/gossip/state.go:483-594 | unless the cache misleads, a refresh both flags and resets the count exactly if one active-key entry is accused by its answers and one is cleared by its own, failed calls included |
| Anomalies.MovedKeyCountsOn | internal/gossip/state.go:485-498 | if the cached key is now somebody else's, a refresh counts one more leaderless sample, names nobody and keeps the key, whoever votes |
| Anomalies.MovedKeyCountsOut | internal/gossip/state.go:485-498 | and so does every refresh of a run: the count grows by one each |
| Anomalies.MovedAccountExample | internal/gossip/state.go:485-498 | it happens to a healthy leader with one account in the table |
| Anomalies.UnsteadyAnswersSplit | internal/gossip/state.go:501-525 | such a refresh: the flag and an active peer come together |
| RefreshMeaning.ActiveMeansLed | internal/gossip/state.go:163-166 | somebody leads exactly if an active declared peer is recorded or somebody leads from outside |
| RefreshMeaning.CountZeroButNobodyNamed | internal/gossip/state.go:427-429 | count 0 with nobody to name, exactly when no declared peer leads and the last undeclared leader has an empty host |
| RefreshMeaning.NobodyNamedExample | internal/gossip/state.go:149 | that case occurs |
| VoteCache.VerdictMeaning | internal/gossip/state.go:483-594 | a failed call never counts against a node; a flag needs a delinquent listing and a known balance above 890880; a vote needs a forgiven delinquent or a current listing |
| VoteCache.CacheAfterJudging | internal/gossip/state.go:483-572 | if the answer a judgement rests on lists the identity, the key of its first account there is cached, the delinquent list before the current one; if not, the key stays unless it was found stale; nobody else's key is touched |
| VoteCache.NextIsAskedFiltered | internal/gossip/state.go:485-498 | once listed, the next entry under the identity is judged by the filtered answer for one of its accounts, unless that is empty |
| VoteCache.CacheMisleadsExactly | internal/gossip/state.go:483-594 | for any cache and any honestly filtered table, the cached and the uncached verdict differ exactly if the cached key is listed and the identity's accounts under it do not show what all its accounts show |
| VoteCache.ReadingIsDirectExactly | internal/gossip/state.go:483-594 | an entry of a refresh is read as without a cache exactly if the cache does not mislead at that moment, whatever came before |
| VoteCache.CacheHidesExactly | internal/gossip/state.go:483-561 | if every vote account keeps its identity, the cache misleads exactly if an accused identity has a cached second account that is listed as current only |
| VoteCache.JudgeIsTransparent | internal/gossip/state.go:483-594 | if besides each identity has one account at a time, the cached and the uncached lookup give the same verdict and flag, failed calls included |
| VoteCache.CacheIsTransparent | internal/gossip/state.go:447-594 | over any run of refreshes with truthful answers, through failed calls, rotations and evictions, every entry is read as by an unfiltered lookup without a cache |
| VoteCache.PermutationDoesNotMatter | internal/gossip/state.go:147-325 | with truthful answers any permutation of the node list gives the same roles, count and delinquency flag |
| VoteCache.TwoAccountsBreakTransparency | internal/gossip/state.go:485-498 | an instance: with two vote accounts the cache hides a delinquency |
| VoteCache.SteadyNeverSplits | internal/gossip/state.go:514-561 | under steady answers no refresh both flags and shows a leader |
| VoteCache.UnaccusedRaisesNoFlag | internal/gossip/state.go:514-561 | a refresh whose answers accuse nobody raises no flag, whatever is cached |
| VoteCache.FlagMeansLeaderless | internal/ha/manager.go:413-431 | under steady answers a raised flag means this refresh recorded no active peer and counted a leaderless sample |
| VoteCache.FlagDoesNotSurvive | internal/gossip/state.go:123-136 | the flag is up exactly when the latest refresh succeeded and raised it |
| Health.State.SampleSelf | internal/local/state.go:55-114 | the whole new streak state after one sample, which is healthy exactly if the answer is "ok" |
| Health.State.IsSelfHealthyLongEnough | internal/local/state.go:118-126 | true exactly if a streak runs and is at least the minimum duration old |
| Health.StreakIsExact | internal/local/state.go:55-114 | healthySince is the first healthy sample after the last one that exhausted the grace, unset if there is none |
| Health.LongEnoughIsExact | internal/local/state.go:118-126 | eligible exactly if some healthy sample is old enough and none since exhausted the grace |
| Health.NoRecentOutage | internal/local/state.go:116-126 | when eligible, every sample that exhausted the grace is at least the minimum duration old |
| Health.OutageEndsStreak | internal/local/state.go:83-107 | a sample that exhausts the grace leaves no streak |
| Health.UnhealthyMarkIsExact | internal/local/state.go:98-111 | being unhealthy is logged exactly if there is no streak and some sample exhausted the grace |
| Health.MilestoneIsExact | internal/local/state.go:70-78 | the milestone is logged exactly if some healthy sample of the streak is, rounded to seconds, as old as the minimum duration |
| Health.MilestoneRunsAheadByHalfASecond | internal/local/state.go:70-78 | the logged milestone comes at most half a second before eligibility |
| FailoverConfig.Failover.SetDefaults | internal/config/failover.go:238-264 | what is left at zero is filled in, a grace of zero included, with the literal defaults |
| FailoverConfig.Failover.Validate | internal/config/failover.go:55-191 | accepts exactly sane numbers, at least one peer, unique IPv4 addresses and all-or-nothing priorities; an error names a fault that is there |
| FailoverConfig.NegativeIntervalPasses | internal/config/failover.go:55-59 | a negative poll interval passes the defaults and the validation |
| FailoverConfig.Failover.ValidateIPs | internal/config/failover.go:139-149 | accepts exactly unique IPv4 addresses, whatever order the peers are visited in; an error names a real culprit |
| FailoverConfig.Failover.ValidatePriorities | internal/config/failover.go:154-188 | accepts exactly if nobody declares a priority, or everybody a different, non-negative one; an error names a real culprit |
| FailoverConfig.Failover.AddSelf | internal/ha/manager.go:130-141 | refuses exactly if a peer has our IP, else adds us without a priority |
| FailoverConfig.Failover.PeerIPPriorityRankMap | internal/config/failover.go:211-235 | for any settings, the last positions in some sorted listing of the entries; with unique IPs and priorities, the number of entries of smaller priority value |
| FailoverConfig.ValidatedPrioritiesAreRankable | internal/ha/manager.go:130-141 | what Validate accepts, with us added, has unique IPs and priorities |
| FailoverConfig.SelfKeepsPriorities | internal/ha/manager.go:137-141 | adding us changes no priority, exactly if our name is not that of a peer with one |
| FailoverConfig.PriorityRanksInOrder | internal/config/failover.go:208-235 | priority ranks are a bijection onto 0..n-1 in priority order |
| FailoverConfig.FollowersShareEntries | internal/ha/manager.go:130-141 | nodes whose settings follow one IP-to-priority assignment rank by the same entries once they have added themselves |
| FailoverConfig.FollowedIsRankable | internal/config/failover.go:154-188 | an assignment that a validated node follows gives no two IPs the same priority |
| FailoverConfig.SamePrioritiesSameRanks | internal/config/failover.go:208-235 | nodes that know the same priorities hold the same ranks |
| Ordering.SortedIsUnique | internal/gossip/state.go:442 | without ties two sorted permutations are one, so the sort's freedom does not show |
| Ordering.StrLessMeaning | internal/gossip/state.go:442 | string order: at the first position at which the two differ, the lesser has ended or has the smaller character |
| Ordering.PartialViewsRankApart | internal/gossip/state.go:392-398 | if B sees A and every smaller IP that A sees, and A comes before B, then B ranks above A |
| Node.Manager.EnsureHAState | internal/ha/manager.go:390-596 | one cycle does to the node what the function Cycle says: gossip, streak, clock and trace |
| Node.Manager.PassGates | internal/ha/manager.go:404-501 | the early returns of the cycle, in order |
| Node.Manager.DelayTakeoverAsActive | internal/ha/manager.go:845-879 | fails exactly if we have no rank, and otherwise sleeps rank times the poll interval |
| Node.Manager.PromoteUnlessLed | internal/ha/manager.go:538-581 | promotes unless an undeclared leader is recorded or, after a delay, the count is 0 |
| Node.Manager.EnsureActive | internal/ha/manager.go:686-748 | the outcome of the active command, at the time it was started |
| Node.Manager.EnsurePassive | internal/ha/manager.go:601-681 | the outcome of the passive command, and a refresh only if it is confirmed |
| Node.Manager.HaMonitorLoop | internal/ha/manager.go:236-306 | initial refresh, first tick, aligned polling and confirmation loop as one function of the inputs |
| Node.Manager.RunConfirmationPollLoop | internal/ha/manager.go:310-326 | polls at the short interval until the count is no longer one below the threshold |
| Node.Initialize | internal/ha/manager.go:111-191 | refuses exactly if a peer has our IP, else starts from the empty state with the ranks the settings give |
| NodeProperties.CycleKeeps | internal/ha/manager.go:390-596 | every cycle keeps: count = trailing leaderless samples, no premature promotion, quiet while led |
| NodeProperties.MonitorInduction | internal/ha/manager.go:259-305 | what every turn keeps, every run of the two loops keeps |
| NodeProperties.NoPrematureCommand | internal/ha/manager.go:411-439 | bypass off: in any run, each role command, promotion or demotion, follows a full threshold of leaderless successful samples, whatever refreshes failed |
| NodeProperties.CountOverRuns | internal/gossip/state.go:318-325 | in any run, whatever the settings and the answers, the count is the length of the trailing leaderless run among successful refreshes |
| NodeProperties.NoCommandsWhileLed | internal/ha/manager.go:404-431 | in any run in which every successful refresh shows a leader, no role command ever runs |
| NodeProperties.NoCommandsWhileAnswersReassure | internal/ha/manager.go:404-431 | the same told by the answers fed in: if every successful first answer of a cycle is truthful and has an active-key entry cleared by its own answers, and with the bypass on none accused, no role command ever runs |
| NodeProperties.LeaderlessSampleMeans | internal/gossip/state.go:318-325 | a look is logged when it happens: as lost if it failed, else as leaderless exactly if no entry votes under the active key |
| RoleGating.OneCommandPerCycle | internal/ha/manager.go:448-596 | no cycle runs two role commands, so none both promotes and demotes |
| RoleGating.DemotionIsExact | internal/ha/manager.go:448-469 | a cycle demotes exactly if it is due and the refresh failed, or did not show us but showed another |
| RoleGating.SoleInvisibleNodeIsNotDemoted | internal/ha/manager.go:456-464 | invisible and alone with a working RPC: never demoted |
| RoleGating.UndeclaredLeaderStopsCommands | internal/ha/manager.go:402-408 | whatever the settings and the answers: a cycle whose first look shows an undeclared leader, the last one listed having a host, runs no role command |
| RoleGating.PromotionIsExact | internal/ha/manager.go:404-581 | a cycle runs the active command exactly if it is due, shows us, our health answer is "ok", for long enough, our identity is not the active key, and we rank first or the second look shows no leader |
| RoleGating.PromotionTakes | internal/ha/manager.go:448-581 | what holds whenever a cycle promotes: we were seen, our health answer was "ok", for long enough, and our identity not the active key; no leader before, and none after the delay; and when it happens |
| RoleGating.PromotionNeedsHealthyHistory | internal/ha/manager.go:484-495 | whenever a cycle promotes, trusted answers or not, every outage is at least the minimum duration old |
| RoleGating.CommandsTellHow | internal/ha/manager.go:598-748 | an active command is confirmed exactly if it ran and the node then reports the active key; a passive one exactly if it ran and the node reports another, and only then the node looks again; a cycle takes as long as its delay and its command |
| HealthOverRuns.TrackedIsStreak | internal/ha/manager.go:753-772 | the samples between two cycles, taken one by one, carry the streak of all samples before on to that of all samples so far |
| HealthOverRuns.BadAnswersEndStreak | internal/local/state.go:55-114 | more answers in a row than the grace count that are not "ok" leave no streak |
| HealthOverRuns.EveryEventHasItsTurn | internal/ha/manager.go:259-305 | in any run the streak is that of all health samples so far, in order, and every event but the initial look was logged by the cycle of one turn, which began with that streak, on a multiple of the poll interval unless it confirms |
| HealthOverRuns.PromotionsNeedHealthyRuns | internal/ha/manager.go:475-495 | in any run, a node that sets out to become active answered "ok" in that turn, and of all its samples so far none exhausted the grace within the minimum duration before that cycle |
| HealthOverRuns.ClusterTracksHealth | internal/ha/manager.go:753-772 | in any run of the cluster the streak of each node is that of all its samples so far |
| HealthOverRuns.BidsAreSound | internal/ha/manager.go:475-495 | in any run of the cluster every attempt or wait was begun by a node that answered "ok" and had no sample that exhausted the grace within the minimum duration |
| RoleGating.VisibleNodeIsRanked | internal/ha/manager.go:861-865 | a node that sees itself always finds its rank |
| RoleGating.UnnamedAbortIsExact | internal/ha/manager.go:551-561 | the abort that names nobody is taken exactly if the last undeclared leader has an empty host |
| Polling.ConfirmationCalls | internal/ha/manager.go:310-326 | threshold 2 or more: one cycle more than there are leading failed refreshes |
| Polling.ConfirmationEndsExactly | internal/ha/manager.go:317-323 | for any threshold, a cycle ends the loop exactly if its first look succeeds and, with threshold 1, its last successful look shows no leader |
| Polling.ThresholdOneKeepsConfirming | internal/ha/manager.go:294-303 | with threshold 1 the loop goes on for as long as a leader is seen |
| Polling.FirstCycleTime | internal/ha/manager.go:252-284 | the first cycle comes at the first multiple of the interval a full interval after the start |
| Polling.Latency | internal/ha/manager.go:256-304 | slow samples fall on consecutive multiples of the poll interval, and the threshold sample one gap after the last |
| Polling.DueAtIsProduct | internal/ha/manager.go:256-304 | the threshold sample falls (threshold - 2) poll intervals and one gap after the first |
| Takeover.TwoStepsAreOneCycle | internal/ha/manager.go:506-581 | the two moves of a delayed cycle make up one cycle of the node |
| Takeover.PromotionsAreInTheTrace | internal/ha/manager.go:575-581 | a promotion is counted exactly when the trace of the moving node gains a successful active command |
| Takeover.BiddersSawNoLeader | internal/ha/manager.go:404-508 | who attempts or waits had a successful refresh that showed it and no leader |
| Takeover.PromotersSawNoLeader | internal/ha/manager.go:525-581 | who promotes had just looked, and if successfully, had seen no leader; the promotion is recorded with the time at which its command was started and done |
| Takeover.RunIsSeparated | internal/ha/manager.go:390-596 | every run keeps all promotions with a successful deciding look separated from earlier ones |
| Takeover.TakeoversAreSeparated | internal/ha/manager.go:390-596 | in every run of N nodes a promotion whose own deciding look was successful starts less than the latency and a command after any earlier one, unless that node fell in a move between them |
| Takeover.BlindWakersPromote | internal/ha/manager.go:530-581 | in every run a node that wakes and gets no answer promotes itself exactly if its command works, whoever leads |
| Round.RankGap | internal/ha/manager.go:872-873 | ranks keep the attempts of a round more than an overshoot, a command and the latency apart |
| Round.WakeGoesOn | internal/ha/manager.go:530-573 | a waking node goes on exactly if nobody was promoted yet in the round |
| Round.RunKeepsRound | internal/ha/manager.go:390-596 | every clean run keeps: at most one promotion, earned by its bid, and no working bid due before it |
| Round.SingleWinner | internal/ha/manager.go:506-581 | a settled round has no winner if no attempt works, else exactly one: the lowest rank that works, rank times the poll interval after its detection, up to the overshoot |
| Round.RunRanksBids | internal/ha/manager.go:852-865 | in every run each attempt has the rank its node holds by priority, or by IP among the peers it saw |
| Round.SingleWinnerByPriority | internal/config/failover.go:208-235 | nodes that share priorities and attempt once each: the working node of smallest priority value wins alone |
| Round.AssignmentIsShared | internal/ha/manager.go:852-854 | nodes initialised from validated settings that follow one assignment share their priorities |
| Round.SingleWinnerByAssignment | internal/config/failover.go:208-235 | the single winner of such nodes, if each attempts once: the working node of smallest assigned value |
| Round.SingleWinnerByIP | internal/gossip/state.go:391-398 | without priorities and with agreeing partial views: the working node of smallest IP wins alone |
| RoundExample.RoundsHappen | internal/ha/manager.go:506-581 | a run of three nodes from the start meets every hypothesis: the first command fails, the second node wins a second late, the third sees it and stands back |
| RoundExample.RetryMakesTwoWinners | internal/ha/manager.go:867-878 | a node that fails and tries again acts when the next in rank wakes: two nodes are promoted at once |
| RpcClient.Client.GetURLsToTry | internal/rpc/clients.go:87-119 | the order of attempts from the memory of the client |
| RpcClient.Client.ExecuteWithRetry | internal/rpc/clients.go:122-167 | the answer and the whole new memory after one call; the last successful URL stays a configured one |
| RpcClient.TriedHowOften | internal/rpc/clients.go:98-118 | each URL is tried as often as configured, the last successful one once |
| RpcClient.PermutationExactly | internal/rpc/clients.go:87-119 | the order is a permutation of the URLs exactly under a condition on the configuration and the last success |
| RpcClient.EveryURLIsTriedExactly | internal/rpc/clients.go:87-119 | no URL is left out, exactly unless nothing has succeeded and some URL is empty |
| RpcClient.TriedByTierAndPlace | internal/rpc/clients.go:81-119 | fresh, then last successful, then cooling, a cooling last success at the end; stable within a tier |
| RpcClient.ReturnsFirstSuccess | internal/rpc/clients.go:127-166 | a call returns the first success in order and fails exactly if every attempt fails |
| RpcClient.OnlyRefusedCool | internal/rpc/clients.go:141-157 | cooldowns change for refused URLs only, to one cooldown after the refusal |
| RpcClient.RefusalSetsCooldown | internal/rpc/clients.go:141-157 | after one call a URL that was refused, with code 403, 429 or 503, cools until one cooldown after the refusal, and any other as before |
| RpcClient.CooldownsOverCalls | internal/rpc/clients.go:141-157 | over any sequence of calls a URL cools until one cooldown after its last refusal, and never if it was not refused |
| RpcClient.OrderOverCallsExactly | internal/rpc/clients.go:87-119 | after any sequence of calls, of two URLs the one is tried before the other exactly if it is on a lower rung, or on the same and configured before it: fresh, last successful, refused less than a cooldown ago, both |
| RpcClient.CooldownRunsOut | internal/rpc/clients.go:98 | a URL last refused at t is tried after every fresh one exactly while now < t + cooldown; from then on it is back among them in its configured place, ahead of the last successful one |
| RpcClient.LastStaysConfigured | internal/rpc/clients.go:160-161 | after any sequence of calls the last successful URL is a configured one or none |
| RpcClient.FailsOnlyAfterAll | internal/rpc/clients.go:122-167 | after any sequence of calls the next one tries every URL exactly once before it fails |
| Ring.Ring.Add | internal/recording/ring.go:15-21 | appends, and drops what no longer fits |
| Ring.Ring.Snapshot | internal/recording/ring.go:24-34 | nothing if empty, else a fresh copy of the samples, oldest first |
| Ring.AddedInOrder | internal/recording/ring.go:15-21 | overwriting the slot at the head is appending to the samples in order |
| Ring.HoldsTheLastTwenty | internal/recording/ring.go:5-34 | after any additions the ring holds the last min(n, 20), in order |
| Replay.LoadReplayData | internal/recording/replay.go:56-193 | fails exactly without recordings; else a sorted, multiset-preserving merge and its downtime |
| Replay.MeasureDowntime | internal/recording/replay.go:157-181 | the downtime loop computes the downtime of the timeline |
| Replay.TimelineHoldsExactly | internal/recording/replay.go:92-112 | a timeline holds exactly the samples and the events of the recordings, and as many |
| Replay.TimelineOrder | internal/recording/replay.go:114-123 | two entries of a timeline are in order of time; at one instant events before samples, and of a kind by the first character in which their names differ |
| Replay.OneTimelineExactly | internal/recording/replay.go:114-123 | recordings have one timeline exactly if no two different entries tie |
| Replay.TwoTimelinesExample | internal/recording/replay.go:114-123 | two samples of one node at one instant give two timelines and two downtimes |
| Replay.FileOrderDoesNotMatter | internal/recording/replay.go:114-123 | without ambiguous entries the timeline and the downtime do not depend on the order of the files |
| Replay.UnambiguousHasNoTies | internal/recording/replay.go:114-123 | different names and no two same-kind entries of a node at one instant leave no ties |
| Replay.DowntimeMeaning | internal/recording/replay.go:157-181 | known exactly if it has a start and an end; it runs from the last led sample before the streak to the last confirmation or the first recovery |
| Replay.NegativeDowntimeExactly | internal/recording/replay.go:173-180 | negative exactly if the ending confirmation precedes the starting sample by half a millisecond or more |
| Replay.DowntimeIsNotNegative | internal/recording/replay.go:157-181 | not negative if every confirmation follows a leaderless sample |
| Replay.NegativeDowntimeExample | internal/recording/replay.go:173-175 | a recording with an early confirmation shows a downtime of minus two seconds |
| Durations.RoundToIsNearest | internal/recording/replay.go:179 | rounding gives a nearest multiple, halves away from zero |

## Left out

- HTTP and JSON-RPC transport, retries inside solana-go, timeouts and error texts: a call is a value or a failure, and an attempt of the RPC client carries at most an error code.
- Hooks, role commands and dry runs: a role command is an outcome with a duration; post hooks have no effect on the protocol.
- Goroutines: one discrete clock, one writer per state object; the health samples that fall between two cycles are an input of the next cycle.
- Go's ticker buffering: the loop goes on at the next multiple of the interval after a cycle ends. That is what the ticker gives unless a cycle that was longer than an interval ends exactly on a multiple; the program then runs again at once.
- Time passing within a cycle other than by the takeover delay and role commands: remote calls take no time.
- Machine integers: counts, times and durations are unbounded, and the saturation of Go's `Time.Sub` is not modelled.
- Slots and slot distances (`DelinquencyDetail`, `GetSlot`): they reach log lines and recordings only.
- The last active peer and the times peers were last seen: they reach log lines and recordings only.
- Recordings of a running failover: the ring, the recorder and the manager are not wired together; the ring is proved on its own.
- Metrics, cache, logging, emoji strings, replay rendering, cobra commands: output only.
- Reading and writing of files, YAML, key pairs, public-IP discovery, `net.ParseIP` (a parameter of `Validate`): input and output.
- The clamp of the confirmation poll to one second in internal/config/config.go:210-215: a single-field check.
- In the replay: the per-file summaries and the peers inside a sample.
- A gossip address that is nil, on which the program would panic: an entry always has an address.
- Priority ranks are computed once, by `Initialize`; the program recomputes them from the same settings in every delay.
- In the cluster a node whose own role command is still running may begin its next cycle: the model allows more runs than the program has.
- Whether an old active node has stopped before a new one starts, and whether a node cut off from every RPC steps down: the code does not decide this, and nothing is claimed.
- Uniqueness across rounds: a node whose attempt failed tries again one poll interval later, when the next rank wakes; only the separation of promotions is claimed for such runs.
- Node.Initialize: asks for positive poll intervals; with a negative one, which the settings' own validation lets through, `time.NewTicker` would panic.
- FailoverConfig.Failover.Validate: does not model the checks of role commands and hooks, which are single-field checks for empty strings.
- Replay.LoadReplayData: does not model file and parse errors, warnings, and the from/to nodes; it starts from the parsed recordings.
