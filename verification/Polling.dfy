/** How long the polling loops run, and how fast they reach the threshold. */
module Polling {
  import opened Answers
  import opened Durations
  import opened Node
  import opened NodeProperties
  import opened RoleGating
  import opened RefreshMeaning
  import opened VoteCache
  import G = Gossip
  import H = Health

  // ---------------------------------------------------------------- the confirmation loop

  /** How many turns from `i` on fail their first refresh before one does not. */
  function LeadingLost(turns: seq<Turn>, i: nat): nat
    requires i <= |turns|
    decreases |turns| - i
  {
    if i < |turns| && turns[i].cycle.first.Failed? then 1 + LeadingLost(turns, i + 1) else 0
  }

  /** One below the threshold, a cycle whose first refresh fails changes neither count nor decision. */
  lemma LostCycleHalts(cfg: Config, s: NodeState, input: CycleInput)
    requires ValidConfig(cfg) && s.view.count < cfg.threshold && input.first.Failed?
    ensures Cycle(cfg, s, input) == Refreshing(cfg, s, input.first)
    ensures Cycle(cfg, s, input).view.count == s.view.count
  {
    CycleByGate(cfg, s, input);
  }

  /** A cycle that is led ends with count 0. */
  lemma LedCycleHalts(cfg: Config, s: NodeState, input: CycleInput)
    requires ValidConfig(cfg) && Trusted(cfg, input) && input.first.Ok?
    requires Refreshing(cfg, s, input.first).view.count == 0
    ensures Cycle(cfg, s, input) == Refreshing(cfg, s, input.first)
  {
    CycleByGate(cfg, s, input);
    if cfg.bypass && Refreshing(cfg, s, input.first).view.delinquent {
      FlagMeansLeaderless(cfg.gossip, s.view, input.first.value);
    }
  }

  lemma RefreshingCount(cfg: Config, s: NodeState, answer: Answer<seq<G.Entry>>)
    ensures var count := Refreshing(cfg, s, answer).view.count;
            count == s.view.count || count == s.view.count + 1 || count == 0
  {
  }

  /** Whatever a cycle does after a first refresh, it adds to the count, resets it, or leaves it. */
  lemma CycleCount(cfg: Config, s: NodeState, input: CycleInput)
    ensures var seen, count := Refreshing(cfg, s, input.first).view.count, Cycle(cfg, s, input).view.count;
            count == seen || count == seen + 1 || count == 0
  {
    CycleByGate(cfg, s, input);
    var seen := Refreshing(cfg, s, input.first);
    match GateOf(cfg, seen, input.health, input.identity)
    case Halt =>
    case Demote =>
      var demoted := Demoting(cfg, seen, input.passive, input.afterPassive);
      assert demoted.view.count == seen.view.count || demoted.view.count == seen.view.count + 1 || demoted.view.count == 0;
    case Proceed =>
      match TakeoverRank(cfg, seen.view)
      case None =>
      case Some(rank) =>
        if rank != 0 {
          RefreshingCount(cfg, seen.(clock := seen.clock + rank * cfg.pollInterval), input.second);
        }
  }

  /** One below a threshold of at least 2, a cycle whose first refresh succeeds leaves that count for good. */
  lemma AnsweredCycleLeaves(cfg: Config, s: NodeState, input: CycleInput)
    requires ValidConfig(cfg) && Trusted(cfg, input) && cfg.threshold >= 2
    requires s.view.count == cfg.threshold - 1 && input.first.Ok?
    ensures Cycle(cfg, s, input).view.count != cfg.threshold - 1
  {
    var seen := Refreshing(cfg, s, input.first);
    if seen.view.count == 0 {
      LedCycleHalts(cfg, s, input);
    } else {
      CycleCount(cfg, s, input);
    }
  }

  /** A step that waits at `below` through lost turns and leaves it for good in any other turn. */
  ghost predicate WaitsOnlyWhenLost(step: Step, below: int, turns: seq<Turn>)
  {
    forall s: NodeState, now: int, i: nat :: i < |turns| && s.view.count == below ==>
      (step(s, now, i).view.count == below <==> turns[i].cycle.first.Failed?)
  }

  lemma CyclesWaitOnlyWhenLost(cfg: Config, turns: seq<Turn>)
    requires ValidConfig(cfg) && AllTrusted(cfg, turns) && cfg.threshold >= 2
    ensures WaitsOnlyWhenLost(StepOf(cfg, turns), cfg.threshold - 1, turns)
  {
    forall s: NodeState, now: int, i: nat | i < |turns| && s.view.count == cfg.threshold - 1
      ensures StepOf(cfg, turns)(s, now, i).view.count == cfg.threshold - 1 <==> turns[i].cycle.first.Failed?
    {
      var ready := Sampling(cfg, s, turns[i].samples, now);
      if turns[i].cycle.first.Failed? {
        LostCycleHalts(cfg, ready, turns[i].cycle);
      } else {
        AnsweredCycleLeaves(cfg, ready, turns[i].cycle);
      }
    }
  }

  lemma {:induction false} CallsOfStep(step: Step, below: int, s: NodeState, interval: int, turns: seq<Turn>, i: nat)
    requires WaitsOnlyWhenLost(step, below, turns) && s.view.count == below && i <= |turns|
    ensures var calls := ConfirmFrom(step, below, s, interval, |turns|, i).1 - i;
            calls == if i + LeadingLost(turns, i) < |turns| then LeadingLost(turns, i) + 1 else |turns| - i
    decreases |turns| - i
  {
    if i < |turns| && turns[i].cycle.first.Failed? {
      CallsOfStep(step, below, step(s, s.clock + interval, i), interval, turns, i + 1);
    }
  }

  /**
   The confirmation loop, exactly: entered one below a threshold of at least 2, it makes
   one cycle more than there are leading failed refreshes, then stops.  (It stops earlier
   only when the turns run out, that is when the program is shut down.)
   */
  lemma ConfirmationCalls(cfg: Config, s: NodeState, interval: int, turns: seq<Turn>, i: nat)
    requires ValidConfig(cfg) && AllTrusted(cfg, turns) && cfg.threshold >= 2
    requires s.view.count == cfg.threshold - 1 && i <= |turns|
    ensures var calls := ConfirmFrom(StepOf(cfg, turns), cfg.threshold - 1, s, interval, |turns|, i).1 - i;
            calls == if i + LeadingLost(turns, i) < |turns| then LeadingLost(turns, i) + 1 else |turns| - i
  {
    CyclesWaitOnlyWhenLost(cfg, turns);
    CallsOfStep(StepOf(cfg, turns), cfg.threshold - 1, s, interval, turns, i);
  }

  /**
   With threshold 1 the count of cycles is not what ConfirmationCalls says: entered while a
   leader is visible, the loop goes on for as long as no sample is leaderless.
   */
  lemma ThresholdOneKeepsConfirming(cfg: Config, s: NodeState, interval: int, turns: seq<Turn>, i: nat)
    requires ValidConfig(cfg) && AllTrusted(cfg, turns) && cfg.threshold == 1
    requires Inv(cfg, s) && i <= |turns|
    requires !SawLeaderless(ConfirmFrom(StepOf(cfg, turns), 0, s, interval, |turns|, i).0.trace)
    ensures ConfirmFrom(StepOf(cfg, turns), 0, s, interval, |turns|, i).1 == |turns|
  {
    InvIsKept(cfg, turns);
    ConfirmInduction(StepOf(cfg, turns), 0, s, interval, |turns|, i, t => Inv(cfg, t));
    assert QuietWhileLed(ConfirmFrom(StepOf(cfg, turns), 0, s, interval, |turns|, i).0);
  }

  /** The last successful look of a cycle whose first look succeeds shows nobody who leads. */
  ghost predicate EndsLeaderless(cfg: Config, s: NodeState, input: CycleInput)
  {
    var seen, decision := Refreshing(cfg, s, input.first), Begin(cfg, s, input).1;
    if decision.Wait? && input.second.Ok? then !LedIn(SecondReadings(cfg, s, input))
    else if decision.StepDown? && TookHold(cfg, input.passive) && input.afterPassive.Ok? then
      !LedIn(Readings(cfg.gossip, seen.view.cache, input.afterPassive.value))
    else !LedIn(FirstReadings(cfg, s, input))
  }

  lemma LookResets(cfg: Config, s: NodeState, answer: Answer<seq<G.Entry>>)
    requires ValidConfig(cfg)
    ensures Refreshing(cfg, s, answer).view.count == 0
       <==> if answer.Ok? then LedIn(Readings(cfg.gossip, s.view.cache, answer.value)) else s.view.count == 0
  {
    if answer.Ok? {
      RefreshRefinesReadings(cfg.gossip, s.view, answer.value);
    }
  }

  lemma CycleEndsLeaderless(cfg: Config, s: NodeState, input: CycleInput)
    requires ValidConfig(cfg) && input.first.Ok?
    ensures Cycle(cfg, s, input).view.count != 0 <==> EndsLeaderless(cfg, s, input)
  {
    LookResets(cfg, s, input.first);
    var seen, decision := Refreshing(cfg, s, input.first), Begin(cfg, s, input).1;
    hide Refreshing, Readings, TakeoverRank, GateOf;
    match decision
    case Wait(rank) =>
      LookResets(cfg, seen.(clock := seen.clock + rank * cfg.pollInterval), input.second);
    case StepDown =>
      var outcome := OutcomeOf(input.passive, H.IsPassive(cfg.gossip.activePubkey, input.passive.identity));
      LookResets(cfg, seen.(clock := seen.clock + input.passive.took,
                            trace := seen.trace + [BecomePassive(seen.clock, outcome)]), input.afterPassive);
    case _ =>
  }

  /**
   What ends the confirmation loop, exactly: entered one below the threshold, a cycle leaves
   that count if and only if its first look succeeds and, should the threshold be 1, its last
   successful look shows no leader.
   */
  lemma ConfirmationEndsExactly(cfg: Config, s: NodeState, input: CycleInput)
    requires ValidConfig(cfg) && Trusted(cfg, input) && s.view.count == cfg.threshold - 1
    ensures Cycle(cfg, s, input).view.count != cfg.threshold - 1
       <==> input.first.Ok? && (cfg.threshold >= 2 || EndsLeaderless(cfg, s, input))
  {
    if input.first.Failed? {
      LostCycleHalts(cfg, s, input);
    } else if cfg.threshold >= 2 {
      AnsweredCycleLeaves(cfg, s, input);
    } else {
      CycleEndsLeaderless(cfg, s, input);
    }
  }

  // ---------------------------------------------------------------- latency

  /** The time between the last slow sample and the confirming one: short only if fast polling is on. */
  function Gap(cfg: Config): int
  {
    if cfg.confirmationPoll < cfg.pollInterval then cfg.confirmationPoll else cfg.pollInterval
  }

  /** The `k`-th of the instants that lie one poll interval apart from `start` on. */
  function Slot(start: int, k: nat, interval: int): int
  {
    if k == 0 then start else Slot(start, k - 1, interval) + interval
  }

  /** When the `k`-th leaderless sample of an uninterrupted run is due, the first one being at `start`. */
  function DueAt(cfg: Config, start: int, k: nat): int
    requires cfg.threshold >= 2
  {
    if k < cfg.threshold - 1 then Slot(start, k, cfg.pollInterval)
    else Slot(start, cfg.threshold - 2, cfg.pollInterval) + Gap(cfg)
  }

  lemma {:induction false} SlotIsProduct(start: int, k: nat, interval: int)
    ensures Slot(start, k, interval) == start + k * interval
  {
    if k == 0 {
    } else {
      SlotIsProduct(start, k - 1, interval);
      assert k * interval == (k - 1) * interval + interval;
    }
  }

  /** The due times in closed form: multiples of the poll interval, and at the end a gap. */
  lemma DueAtIsProduct(cfg: Config, start: int, k: nat)
    requires cfg.threshold >= 2 && k < cfg.threshold
    ensures DueAt(cfg, start, k) == if k < cfg.threshold - 1 then start + k * cfg.pollInterval
                                    else start + (cfg.threshold - 2) * cfg.pollInterval + Gap(cfg)
  {
    SlotIsProduct(start, k, cfg.pollInterval);
    SlotIsProduct(start, cfg.threshold - 2, cfg.pollInterval);
  }

  lemma SlotIsAligned(start: int, k: nat, interval: int)
    requires interval > 0 && start % interval == 0
    ensures Slot(start, k, interval) % interval == 0
  {
    SlotIsProduct(start, k, interval);
    var q := start / interval;
    assert start == interval * q;
    assert start + k * interval == interval * (q + k) by {
      assert interval * (q + k) == interval * q + interval * k;
    }
    MultipleOf(q + k, interval);
  }

  /** With the fast path on, the first refresh of the turn accuses nobody. */
  ghost predicate Unprovoked(cfg: Config, turn: Turn)
  {
    cfg.bypass && turn.cycle.first.Ok? ==>
      forall e :: e in turn.cycle.first.value && e.node.pubkey == cfg.gossip.activePubkey ==>
        Unaccusing(cfg.gossip.activePubkey, e.probe)
  }

  lemma UnprovokedRaisesNoFlag(cfg: Config, s: NodeState, turn: Turn)
    requires ValidConfig(cfg) && Unprovoked(cfg, turn)
    ensures !(cfg.bypass && Refreshing(cfg, s, turn.cycle.first).view.delinquent)
  {
    if cfg.bypass && turn.cycle.first.Ok? {
      UnaccusedRaisesNoFlag(cfg.gossip, s.view.cache, turn.cycle.first.value);
      RefreshRefinesReadings(cfg.gossip, s.view, turn.cycle.first.value);
    }
  }

  /** Below the threshold and without a flag that counts, a cycle only samples. */
  lemma BelowThresholdOnlySamples(cfg: Config, s: NodeState, input: CycleInput)
    requires ValidConfig(cfg) && Refreshing(cfg, s, input.first).view.count < cfg.threshold
    requires !(cfg.bypass && Refreshing(cfg, s, input.first).view.delinquent)
    ensures Cycle(cfg, s, input) == Refreshing(cfg, s, input.first)
  {
    CycleByGate(cfg, s, input);
  }

  lemma CycleGrows(cfg: Config, s: NodeState, input: CycleInput)
    ensures s.trace < Cycle(cfg, s, input).trace
    ensures Cycle(cfg, s, input).trace[|s.trace|]
         == (if input.first.Ok? then Sample(s.clock, Refreshing(cfg, s, input.first).view.count > 0) else SampleLost(s.clock))
  {
    OneCommandPerCycle(cfg, s, input);
    CycleByGate(cfg, s, input);
  }

  /** A step that adds events, the first of which, if a sample, bears the time of the step. */
  ghost predicate Grows(step: Step, n: nat)
  {
    forall s: NodeState, now: int, i: nat :: i < n ==>
      var t := step(s, now, i).trace;
      s.trace < t && (t[|s.trace|].Sample? ==> t[|s.trace|].at == now)
  }

  /** A step that, below the threshold and in the turns from `lo` to `hi`, turns a leaderless sample into nothing but one more in the count. */
  ghost predicate OnlySamplesBelow(step: Step, threshold: int, lo: nat, hi: nat)
  {
    forall s: NodeState, now: int, i: nat :: lo <= i < hi && s.view.count + 1 < threshold ==>
      var after := step(s, now, i);
      (|s.trace| < |after.trace| && after.trace[|s.trace|].Sample? && after.trace[|s.trace|].leaderless) ==>
        after.view.count == s.view.count + 1 && after.clock == now && |after.trace| == |s.trace| + 1
  }

  lemma TurnsGrow(cfg: Config, turns: seq<Turn>)
    ensures Grows(StepOf(cfg, turns), |turns|)
  {
    forall s: NodeState, now: int, i: nat | i < |turns|
      ensures var t := StepOf(cfg, turns)(s, now, i).trace;
              s.trace < t && (t[|s.trace|].Sample? ==> t[|s.trace|].at == now)
    {
      CycleGrows(cfg, Sampling(cfg, s, turns[i].samples, now), turns[i].cycle);
    }
  }

  lemma TurnsOnlySampleBelow(cfg: Config, turns: seq<Turn>, lo: nat, hi: nat)
    requires ValidConfig(cfg) && hi <= |turns| && forall i :: lo <= i < hi ==> Unprovoked(cfg, turns[i])
    ensures OnlySamplesBelow(StepOf(cfg, turns), cfg.threshold, lo, hi)
  {
    forall s: NodeState, now: int, i: nat | lo <= i < hi && s.view.count + 1 < cfg.threshold
      ensures var after := StepOf(cfg, turns)(s, now, i);
              (|s.trace| < |after.trace| && after.trace[|s.trace|].Sample? && after.trace[|s.trace|].leaderless) ==>
                after.view.count == s.view.count + 1 && after.clock == now && |after.trace| == |s.trace| + 1
    {
      var ready := Sampling(cfg, s, turns[i].samples, now);
      CycleGrows(cfg, ready, turns[i].cycle);
      UnprovokedRaisesNoFlag(cfg, ready, turns[i]);
      BelowThresholdOnlySamples(cfg, ready, turns[i].cycle);
    }
  }

  /** What a growing step has logged stays logged, so the two loops keep it too. */
  lemma LogStays(step: Step, n: nat, log: seq<Event>)
    requires Grows(step, n)
    ensures KeptBy(step, n, (t: NodeState) => log <= t.trace)
  {
  }

  lemma ConfirmGrows(step: Step, below: int, s: NodeState, interval: int, n: nat, i: nat)
    requires i <= n && Grows(step, n)
    ensures s.trace <= ConfirmFrom(step, below, s, interval, n, i).0.trace
  {
    LogStays(step, n, s.trace);
    ConfirmInduction(step, below, s, interval, n, i, (t: NodeState) => s.trace <= t.trace);
  }

  lemma MonitorGrows(step: Step, cfg: Config, s: NodeState, n: nat, i: nat)
    requires cfg.pollInterval > 0 && i <= n && Grows(step, n)
    ensures s.trace <= MonitorFrom(step, cfg, s, n, i).trace
  {
    LogStays(step, n, s.trace);
    MonitorInduction(step, cfg, s, n, i, (t: NodeState) => s.trace <= t.trace);
  }

  /** The next `n` events of a run are leaderless samples. */
  ghost predicate LeaderlessNext(trace: seq<Event>, from: nat, n: int)
  {
    from + n <= |trace| && forall k :: from <= k < from + n ==> trace[k].Sample? && trace[k].leaderless
  }

  lemma AlignedAgain(now: int, interval: int)
    requires interval > 0 && now % interval == 0
    ensures NextAligned(now, interval) == now + interval
  {
    var q := now / interval;
    assert now == interval * q;
    assert (q + 1) * interval == interval * q + interval;
  }

  lemma NextAlignedIsMultiple(now: int, interval: int)
    requires interval > 0
    ensures NextAligned(now, interval) % interval == 0
    ensures now < NextAligned(now, interval) <= now + interval
  {
    assert now == interval * (now / interval) + now % interval;
    assert NextAligned(now, interval) == interval * (now / interval + 1);
    assert interval * (now / interval + 1) == interval * (now / interval) + interval;
    MultipleOf(now / interval + 1, interval);
  }

  /** The first cycle after the start comes at the first multiple of the interval a full interval later. */
  lemma FirstCycleTime(cfg: Config, s: NodeState)
    requires cfg.pollInterval > 0
    ensures var first := NextAligned(Ticking(cfg, s).clock, cfg.pollInterval);
            first % cfg.pollInterval == 0 && s.clock + cfg.pollInterval <= first < s.clock + 2 * cfg.pollInterval
  {
    var interval, tick := cfg.pollInterval, s.clock + cfg.pollInterval;
    NextAlignedIsMultiple(tick, interval);
    var first := AlignedFrom(tick, interval);
    assert first % interval == 0;
    assert (first - interval) % interval == 0 by {
      assert first == interval * (first / interval);
      assert first - interval == interval * (first / interval - 1);
      MultipleOf(first / interval - 1, interval);
    }
    AlignedAgain(first - interval, interval);
  }

  /** The first event a confirmation loop adds comes one interval after it was entered. */
  lemma FirstConfirmEvent(step: Step, below: int, s: NodeState, interval: int, n: nat, i: nat)
    requires i < n && Grows(step, n)
    ensures var t := ConfirmFrom(step, below, s, interval, n, i).0.trace;
            s.trace < t && (t[|s.trace|].Sample? ==> t[|s.trace|].at == s.clock + interval)
  {
    var after := step(s, s.clock + interval, i);
    if after.view.count == below {
      ConfirmGrows(step, below, after, interval, n, i + 1);
    }
  }

  /** The rest of a monitor run after the slow sample that leaves the count one below the threshold. */
  ghost function AfterLastSlow(step: Step, cfg: Config, s: NodeState, n: nat, i: nat): NodeState
    requires cfg.pollInterval > 0 && i <= n
  {
    if cfg.confirmationPoll < cfg.pollInterval then
      var (confirmed, next) := ConfirmFrom(step, cfg.threshold - 1, s, cfg.confirmationPoll, n, i);
      MonitorFrom(step, cfg, confirmed, n, next)
    else
      MonitorFrom(step, cfg, s, n, i)
  }

  /** The monitor loop, one turn on; its trace contains what that turn left. */
  lemma {:induction false} MonitorStep(step: Step, cfg: Config, s: NodeState, n: nat, i: nat) returns (after: NodeState)
    requires Grows(step, n) && cfg.pollInterval > 0 && i < n
    ensures after == step(s, NextAligned(s.clock, cfg.pollInterval), i)
    ensures MonitorFrom(step, cfg, s, n, i)
         == if after.view.count == cfg.threshold - 1 then AfterLastSlow(step, cfg, after, n, i + 1)
            else MonitorFrom(step, cfg, after, n, i + 1)
    ensures after.trace <= MonitorFrom(step, cfg, s, n, i).trace
  {
    hide NextAligned, Grows;
    after := step(s, NextAligned(s.clock, cfg.pollInterval), i);
    if cfg.confirmationPoll < cfg.pollInterval && after.view.count == cfg.threshold - 1 {
      var (confirmed, next) := ConfirmFrom(step, cfg.threshold - 1, after, cfg.confirmationPoll, n, i + 1);
      ConfirmGrows(step, cfg.threshold - 1, after, cfg.confirmationPoll, n, i + 1);
      MonitorGrows(step, cfg, confirmed, n, next);
    } else {
      MonitorGrows(step, cfg, after, n, i + 1);
    }
  }

  /** The first event the monitor loop adds comes at the next aligned instant. */
  lemma FirstMonitorEvent(step: Step, cfg: Config, s: NodeState, n: nat, i: nat)
    requires i < n && cfg.pollInterval > 0 && Grows(step, n)
    ensures var t := MonitorFrom(step, cfg, s, n, i).trace;
            s.trace < t && (t[|s.trace|].Sample? ==> t[|s.trace|].at == NextAligned(s.clock, cfg.pollInterval))
  {
    hide NextAligned;
    hide MonitorFrom, AfterLastSlow;
    var after := MonitorStep(step, cfg, s, n, i);
  }

  /** The sample after the last slow one comes after the gap. */
  lemma ThresholdSample(step: Step, cfg: Config, s: NodeState, n: nat, i: nat)
    requires Grows(step, n)
    requires cfg.pollInterval > 0 && i <= n && s.clock % cfg.pollInterval == 0
    requires var t := AfterLastSlow(step, cfg, s, n, i).trace; |s.trace| < |t| && t[|s.trace|].Sample?
    ensures AfterLastSlow(step, cfg, s, n, i).trace[|s.trace|].at == s.clock + Gap(cfg)
  {
    if i < n {
      if cfg.confirmationPoll < cfg.pollInterval {
        var (confirmed, next) := ConfirmFrom(step, cfg.threshold - 1, s, cfg.confirmationPoll, n, i);
        FirstConfirmEvent(step, cfg.threshold - 1, s, cfg.confirmationPoll, n, i);
        MonitorGrows(step, cfg, confirmed, n, next);
      } else {
        FirstMonitorEvent(step, cfg, s, n, i);
        AlignedAgain(s.clock, cfg.pollInterval);
      }
    }
  }

  /** A slow turn of a leaderless run below the threshold adds one sample and one to the count. */
  lemma SlowTurn(step: Step, cfg: Config, s: NodeState, n: nat, i: nat) returns (after: NodeState)
    requires Grows(step, n) && OnlySamplesBelow(step, cfg.threshold, i, i + 1)
    requires cfg.pollInterval > 0 && i < n && s.view.count + 1 < cfg.threshold
    requires var t := MonitorFrom(step, cfg, s, n, i).trace;
             |s.trace| < |t| && t[|s.trace|].Sample? && t[|s.trace|].leaderless
    ensures after.view.count == s.view.count + 1 && after.clock == NextAligned(s.clock, cfg.pollInterval)
    ensures |after.trace| == |s.trace| + 1 && after.trace <= MonitorFrom(step, cfg, s, n, i).trace
    ensures after.trace[|s.trace|].Sample? && after.trace[|s.trace|].at == after.clock
    ensures MonitorFrom(step, cfg, s, n, i)
         == if after.view.count + 1 == cfg.threshold then AfterLastSlow(step, cfg, after, n, i + 1)
            else MonitorFrom(step, cfg, after, n, i + 1)
  {
    hide NextAligned, MonitorFrom, AfterLastSlow;
    after := MonitorStep(step, cfg, s, n, i);
  }

  lemma NotAtEnd(step: Step, cfg: Config, s: NodeState, n: nat, i: nat)
    requires cfg.pollInterval > 0 && i <= n
    requires |MonitorFrom(step, cfg, s, n, i).trace| > |s.trace|
    ensures i < n
  {
  }

  lemma FewerTurns(step: Step, threshold: int, lo: nat, hi: nat, i: nat, j: nat)
    requires OnlySamplesBelow(step, threshold, lo, hi) && lo <= i && j <= hi
    ensures OnlySamplesBelow(step, threshold, i, j)
  {
  }

  lemma {:induction false} LatencyFrom(
    step: Step, cfg: Config, s: NodeState, n: nat, i: nat, hi: nat, k: nat, start: int, m: nat)
    requires Grows(step, n) && OnlySamplesBelow(step, cfg.threshold, i, hi) && cfg.pollInterval > 0 && i <= n
    requires hi == n || i + cfg.threshold - 1 - k <= hi
    requires s.view.count == k && k <= m < cfg.threshold && k + 1 < cfg.threshold && start % cfg.pollInterval == 0
    requires NextAligned(s.clock, cfg.pollInterval) == Slot(start, k, cfg.pollInterval)
    requires LeaderlessNext(MonitorFrom(step, cfg, s, n, i).trace, |s.trace|, cfg.threshold - k)
    ensures MonitorFrom(step, cfg, s, n, i).trace[|s.trace| + m - k].at == DueAt(cfg, start, m)
    decreases n - i
  {
    hide MonitorFrom, AfterLastSlow, Grows, OnlySamplesBelow, NextAligned;
    NotAtEnd(step, cfg, s, n, i);
    FewerTurns(step, cfg.threshold, i, hi, i, i + 1);
    var after := SlowTurn(step, cfg, s, n, i);
    SlotIsAligned(start, k, cfg.pollInterval);
    AlignedAgain(after.clock, cfg.pollInterval);
    if m > k {
      if k + 2 < cfg.threshold {
        FewerTurns(step, cfg.threshold, i, hi, i + 1, hi);
        LatencyFrom(step, cfg, after, n, i + 1, hi, k + 1, start, m);
      } else {
        ThresholdSample(step, cfg, after, n, i + 1);
      }
    }
  }

  /**
   Latency.  From any moment with count 0 and a threshold of at least 2, if the run goes on
   with a full threshold of leaderless samples, the slow ones fall on consecutive multiples
   of the poll interval and the one that reaches the threshold (threshold - 2) poll intervals
   and one gap after the first: a confirmation interval when fast polling is on.  With the
   delinquency fast path on, none of the slow samples may accuse anybody.
   */
  lemma Latency(cfg: Config, s: NodeState, turns: seq<Turn>, i: nat, m: nat)
    requires ValidConfig(cfg) && cfg.threshold >= 2 && i <= |turns|
    requires forall j :: i <= j < |turns| && j < i + cfg.threshold - 1 ==> Unprovoked(cfg, turns[j])
    requires s.view.count == 0 && m < cfg.threshold
    requires LeaderlessNext(MonitorFrom(StepOf(cfg, turns), cfg, s, |turns|, i).trace, |s.trace|, cfg.threshold)
    ensures var start := NextAligned(s.clock, cfg.pollInterval);
            && start % cfg.pollInterval == 0
            && MonitorFrom(StepOf(cfg, turns), cfg, s, |turns|, i).trace[|s.trace| + m].at == DueAt(cfg, start, m)
  {
    hide StepOf, NextAligned, MonitorFrom, Grows, OnlySamplesBelow, DueAt;
    TurnsGrow(cfg, turns);
    var hi := if i + cfg.threshold - 1 <= |turns| then i + cfg.threshold - 1 else |turns|;
    TurnsOnlySampleBelow(cfg, turns, i, hi);
    NextAlignedIsMultiple(s.clock, cfg.pollInterval);
    LatencyFrom(StepOf(cfg, turns), cfg, s, |turns|, i, hi, 0, NextAligned(s.clock, cfg.pollInterval), m);
  }
}
