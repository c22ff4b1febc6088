/** What every decision cycle keeps, and what therefore holds over every run of one node. */
module NodeProperties {
  import opened Answers
  import opened Node
  import opened RefreshMeaning
  import opened VoteCache
  import opened Anomalies
  import G = Gossip
  import H = Health

  // ---------------------------------------------------------------- samples in a trace

  /** The verdicts of the successful refreshes in a trace; failed ones leave no mark. */
  function Samples(trace: seq<Event>): seq<bool>
  {
    if trace == [] then []
    else
      var before, e := Samples(trace[..|trace| - 1]), trace[|trace| - 1];
      if e.Sample? then before + [e.leaderless] else before
  }

  /** How many of the last samples in a row were leaderless. */
  function Trailing(samples: seq<bool>): nat
  {
    if samples == [] || !samples[|samples| - 1] then 0 else 1 + Trailing(samples[..|samples| - 1])
  }

  ghost predicate LastLeaderless(samples: seq<bool>, n: int)
  {
    n <= |samples| && forall k :: |samples| - n <= k < |samples| && 0 <= k ==> samples[k]
  }

  lemma {:induction false} TrailingAreLeaderless(samples: seq<bool>, n: int)
    requires n <= Trailing(samples)
    ensures LastLeaderless(samples, n)
  {
    if n > 0 {
      TrailingAreLeaderless(samples[..|samples| - 1], n - 1);
    } else if samples != [] {
      assert Trailing(samples) >= 0;
    }
  }

  lemma SamplesOfOneMore(trace: seq<Event>, e: Event)
    ensures Samples(trace + [e]) == Samples(trace) + if e.Sample? then [e.leaderless] else []
  {
    assert (trace + [e])[..|trace|] == trace;
  }

  // ---------------------------------------------------------------- the invariant of every run

  /** The count is the length of the trailing leaderless run among the successful refreshes. */
  ghost predicate CountIsTrailing(s: NodeState)
  {
    s.view.count == Trailing(Samples(s.trace))
  }

  /** Every role command so far came after a full threshold of leaderless samples, with none in between. */
  ghost predicate NeverPremature(cfg: Config, trace: seq<Event>)
  {
    forall i :: 0 <= i < |trace| && IsCommand(trace[i]) ==> LastLeaderless(Samples(trace[..i]), cfg.threshold)
  }

  predicate IsCommand(e: Event)
  {
    e.BecomeActive? || e.BecomePassive?
  }

  ghost predicate SawLeaderless(trace: seq<Event>)
  {
    exists e :: e in trace && e.Sample? && e.leaderless
  }

  /** As long as no sample was leaderless the count is 0 and no role command ran. */
  ghost predicate QuietWhileLed(s: NodeState)
  {
    SawLeaderless(s.trace) || (s.view.count == 0 && forall e :: e in s.trace ==> !IsCommand(e))
  }

  ghost predicate Inv(cfg: Config, s: NodeState)
  {
    && CountIsTrailing(s)
    && (!cfg.bypass ==> NeverPremature(cfg, s.trace))
    && QuietWhileLed(s)
  }

  ghost predicate SteadyAnswer(cfg: Config, answer: Answer<seq<G.Entry>>)
  {
    answer.Ok? ==> Steady(cfg.gossip, answer.value)
  }

  /** The fast path is off, or the answers of the deciding refresh are steady. */
  ghost predicate Trusted(cfg: Config, input: CycleInput)
  {
    cfg.bypass ==> SteadyAnswer(cfg, input.first)
  }

  lemma NeverPrematureStep(cfg: Config, trace: seq<Event>, e: Event)
    requires NeverPremature(cfg, trace)
    requires IsCommand(e) ==> LastLeaderless(Samples(trace), cfg.threshold)
    ensures NeverPremature(cfg, trace + [e])
  {
    var more := trace + [e];
    forall i | 0 <= i < |more| && IsCommand(more[i]) ensures LastLeaderless(Samples(more[..i]), cfg.threshold) {
      assert more[..i] == trace[..i];
      assert i == |trace| ==> trace[..i] == trace;
    }
  }

  lemma OneMoreEvent(trace: seq<Event>, e: Event)
    ensures SawLeaderless(trace) || (e.Sample? && e.leaderless) <==> SawLeaderless(trace + [e])
  {
    assert e in trace + [e];
    assert forall x :: x in trace ==> x in trace + [e];
  }

  /** The event a refresh leaves, and how the count goes with it. */
  lemma RefreshingEvent(cfg: Config, s: NodeState, answer: Answer<seq<G.Entry>>) returns (e: Event)
    ensures Refreshing(cfg, s, answer).trace == s.trace + [e] && !IsCommand(e)
    ensures Refreshing(cfg, s, answer).view.count
         == if e.Sample? then (if e.leaderless then s.view.count + 1 else 0) else s.view.count
    ensures e.Sample? <==> answer.Ok?
  {
    e := if answer.Ok? then Sample(s.clock, Refreshing(cfg, s, answer).view.count > 0) else SampleLost(s.clock);
  }

  lemma TrailingOfOneMore(samples: seq<bool>, leaderless: bool)
    ensures Trailing(samples + [leaderless]) == if leaderless then Trailing(samples) + 1 else 0
  {
    assert (samples + [leaderless])[..|samples|] == samples;
  }

  // ---------------------------------------------------------------- the count, whatever the answers

  lemma RefreshingCounts(cfg: Config, s: NodeState, answer: Answer<seq<G.Entry>>)
    requires CountIsTrailing(s)
    ensures CountIsTrailing(Refreshing(cfg, s, answer))
  {
    var e := RefreshingEvent(cfg, s, answer);
    hide Refreshing;
    SamplesOfOneMore(s.trace, e);
    if e.Sample? {
      TrailingOfOneMore(Samples(s.trace), e.leaderless);
    }
  }

  lemma CommandCounts(s: NodeState, t: NodeState, e: Event)
    requires CountIsTrailing(s) && IsCommand(e) && t.view == s.view && t.trace == s.trace + [e]
    ensures CountIsTrailing(t)
  {
    SamplesOfOneMore(s.trace, e);
  }

  lemma PromotingCounts(cfg: Config, s: NodeState, run: RoleRun)
    requires CountIsTrailing(s)
    ensures CountIsTrailing(Promoting(cfg, s, run))
  {
    var t := Promoting(cfg, s, run);
    CommandCounts(s, t, t.trace[|s.trace|]);
  }

  lemma DemotingCounts(cfg: Config, s: NodeState, run: RoleRun, after: Answer<seq<G.Entry>>)
    requires CountIsTrailing(s)
    ensures CountIsTrailing(Demoting(cfg, s, run, after))
  {
    var outcome := OutcomeOf(run, H.IsPassive(cfg.gossip.activePubkey, run.identity));
    var demoted := s.(clock := s.clock + run.took, trace := s.trace + [BecomePassive(s.clock, outcome)]);
    CommandCounts(s, demoted, BecomePassive(s.clock, outcome));
    RefreshingCounts(cfg, demoted, after);
    hide Refreshing, CountIsTrailing;
  }

  lemma FinishCounts(cfg: Config, s: NodeState, input: CycleInput)
    requires CountIsTrailing(s)
    ensures CountIsTrailing(Finish(cfg, s, input))
  {
    RefreshingCounts(cfg, s, input.second);
    PromotingCounts(cfg, Refreshing(cfg, s, input.second), input.active);
    hide Refreshing, Promoting, CountIsTrailing;
  }

  lemma SameCounts(s: NodeState, t: NodeState)
    requires t.view == s.view && t.trace == s.trace
    ensures CountIsTrailing(s) <==> CountIsTrailing(t)
  {
  }

  /** Every cycle, whatever the answers, keeps the count in step with the samples. */
  lemma CycleCounts(cfg: Config, s: NodeState, input: CycleInput)
    requires CountIsTrailing(s)
    ensures CountIsTrailing(Cycle(cfg, s, input))
  {
    hide Refreshing, Decide, Demoting, Promoting, Finish, CountIsTrailing;
    RefreshingCounts(cfg, s, input.first);
    var seen, decision := Refreshing(cfg, s, input.first), Begin(cfg, s, input).1;
    match decision
    case StepDown => DemotingCounts(cfg, seen, input.passive, input.afterPassive);
    case Attempt => PromotingCounts(cfg, seen, input.active);
    case Wait(rank) =>
      var woken := seen.(clock := seen.clock + rank * cfg.pollInterval);
      SameCounts(seen, woken);
      FinishCounts(cfg, woken, input);
    case Stay =>
  }

  // ---------------------------------------------------------------- commands

  /** A refresh keeps the count in step with the samples, and cannot disturb the history of commands. */
  lemma RefreshingKeeps(cfg: Config, s: NodeState, answer: Answer<seq<G.Entry>>)
    requires CountIsTrailing(s)
    requires !cfg.bypass ==> NeverPremature(cfg, s.trace)
    ensures var t := Refreshing(cfg, s, answer);
            && CountIsTrailing(t)
            && (!cfg.bypass ==> NeverPremature(cfg, t.trace))
            && (QuietWhileLed(s) ==> QuietWhileLed(t))
  {
    var e := RefreshingEvent(cfg, s, answer);
    RefreshingCounts(cfg, s, answer);
    hide Refreshing;
    OneMoreEvent(s.trace, e);
    if !cfg.bypass {
      NeverPrematureStep(cfg, s.trace, e);
    }
  }

  lemma CommandKeeps(cfg: Config, s: NodeState, t: NodeState, e: Event)
    requires CountIsTrailing(s) && IsCommand(e) && SawLeaderless(s.trace)
    requires !cfg.bypass ==> NeverPremature(cfg, s.trace)
    requires t.view == s.view && t.trace == s.trace + [e]
    requires !cfg.bypass ==> s.view.count >= cfg.threshold
    ensures Inv(cfg, t)
  {
    CommandCounts(s, t, e);
    OneMoreEvent(s.trace, e);
    if !cfg.bypass {
      TrailingAreLeaderless(Samples(s.trace), cfg.threshold);
      NeverPrematureStep(cfg, s.trace, e);
    }
  }

  /** Whoever passes the threshold gate has just seen a leaderless sample, now or earlier in the run. */
  lemma PassingNeedsLeaderless(cfg: Config, s: NodeState, input: CycleInput)
    requires ValidConfig(cfg) && QuietWhileLed(s) && Trusted(cfg, input)
    ensures var seen := Refreshing(cfg, s, input.first);
            GateOf(cfg, seen, input.health, input.identity) != Halt ==> SawLeaderless(seen.trace)
  {
    var seen := Refreshing(cfg, s, input.first);
    var e := seen.trace[|s.trace|];
    OneMoreEvent(s.trace, e);
    if !SawLeaderless(seen.trace) && input.first.Ok? && cfg.bypass && seen.view.delinquent {
      FlagMeansLeaderless(cfg.gossip, s.view, input.first.value);
    }
  }

  /** Every cycle keeps the invariant. */
  lemma CycleKeeps(cfg: Config, s: NodeState, input: CycleInput)
    requires ValidConfig(cfg) && Inv(cfg, s) && Trusted(cfg, input)
    ensures Inv(cfg, Cycle(cfg, s, input))
  {
    CycleByGate(cfg, s, input);
    RefreshingKeeps(cfg, s, input.first);
    PassingNeedsLeaderless(cfg, s, input);
    var seen := Refreshing(cfg, s, input.first);
    match GateOf(cfg, seen, input.health, input.identity)
    case Halt =>
    case Demote => DemotingKeeps(cfg, seen, input.passive, input.afterPassive);
    case Proceed => TakingOverKeeps(cfg, seen, input);
  }

  lemma DemotingKeeps(cfg: Config, s: NodeState, run: RoleRun, after: Answer<seq<G.Entry>>)
    requires Inv(cfg, s) && SawLeaderless(s.trace)
    requires !cfg.bypass ==> s.view.count >= cfg.threshold
    ensures Inv(cfg, Demoting(cfg, s, run, after))
  {
    var outcome := OutcomeOf(run, H.IsPassive(cfg.gossip.activePubkey, run.identity));
    var demoted := s.(clock := s.clock + run.took, trace := s.trace + [BecomePassive(s.clock, outcome)]);
    CommandKeeps(cfg, s, demoted, BecomePassive(s.clock, outcome));
    if outcome == Confirmed {
      RefreshingKeeps(cfg, demoted, after);
      assert Demoting(cfg, s, run, after) == Refreshing(cfg, demoted, after);
    } else {
      assert Demoting(cfg, s, run, after) == demoted;
    }
  }

  lemma PromotingKeeps(cfg: Config, s: NodeState, run: RoleRun)
    requires Inv(cfg, s) && SawLeaderless(s.trace)
    requires !cfg.bypass ==> s.view.count >= cfg.threshold
    ensures Inv(cfg, Promoting(cfg, s, run))
  {
    var t := Promoting(cfg, s, run);
    CommandKeeps(cfg, s, t, t.trace[|s.trace|]);
  }

  lemma FinishKeeps(cfg: Config, s: NodeState, input: CycleInput)
    requires Inv(cfg, s) && SawLeaderless(s.trace)
    requires !cfg.bypass ==> s.view.count >= cfg.threshold
    ensures Inv(cfg, Finish(cfg, s, input))
  {
    var seen := Refreshing(cfg, s, input.second);
    RefreshingKeeps(cfg, s, input.second);
    OneMoreEvent(s.trace, seen.trace[|s.trace|]);
    if G.HasUndeclared(seen.view) || seen.view.count == 0 {
      assert Finish(cfg, s, input) == seen;
    } else {
      PromotingKeeps(cfg, seen, input.active);
    }
  }

  lemma TakingOverKeeps(cfg: Config, s: NodeState, input: CycleInput)
    requires Inv(cfg, s) && SawLeaderless(s.trace)
    requires !cfg.bypass ==> s.view.count >= cfg.threshold
    ensures Inv(cfg, TakingOver(cfg, s, input))
  {
    hide Finish, Promoting, TakeoverRank;
    match TakeoverRank(cfg, s.view)
    case None =>
    case Some(rank) =>
      if rank == 0 {
        PromotingKeeps(cfg, s, input.active);
      } else {
        FinishKeeps(cfg, s.(clock := s.clock + rank * cfg.pollInterval), input);
      }
  }

  // ---------------------------------------------------------------- runs

  ghost predicate AllTrusted(cfg: Config, turns: seq<Turn>)
  {
    forall i :: 0 <= i < |turns| ==> Trusted(cfg, turns[i].cycle)
  }

  lemma TurnKeeps(cfg: Config, s: NodeState, now: int, turn: Turn)
    requires ValidConfig(cfg) && Inv(cfg, s) && Trusted(cfg, turn.cycle)
    ensures Inv(cfg, TurnAt(cfg, s, now, turn))
  {
    CycleKeeps(cfg, Sampling(cfg, s, turn.samples, now), turn.cycle);
  }

  /** `P` survives every step. */
  ghost predicate KeptBy(step: Step, n: nat, P: NodeState -> bool)
  {
    forall s: NodeState, now: int, i: nat :: P(s) && i < n ==> P(step(s, now, i))
  }

  lemma {:induction false} ConfirmInduction(
    step: Step, below: int, s: NodeState, interval: int, n: nat, i: nat, P: NodeState -> bool)
    requires i <= n && P(s) && KeptBy(step, n, P)
    ensures P(ConfirmFrom(step, below, s, interval, n, i).0)
    decreases n - i
  {
    if i == n {
    } else {
      var after := step(s, s.clock + interval, i);
      if after.view.count == below {
        ConfirmInduction(step, below, after, interval, n, i + 1, P);
      }
    }
  }

  /** The induction principle for runs: what every turn keeps, the two loops keep. */
  lemma {:induction false} MonitorInduction(step: Step, cfg: Config, s: NodeState, n: nat, i: nat, P: NodeState -> bool)
    requires i <= n && cfg.pollInterval > 0 && P(s) && KeptBy(step, n, P)
    ensures P(MonitorFrom(step, cfg, s, n, i))
    decreases n - i
  {
    if i == n {
    } else {
      var after := step(s, NextAligned(s.clock, cfg.pollInterval), i);
      if cfg.confirmationPoll < cfg.pollInterval && after.view.count == cfg.threshold - 1 {
        ConfirmInduction(step, cfg.threshold - 1, after, cfg.confirmationPoll, n, i + 1, P);
        var (confirmed, next) := ConfirmFrom(step, cfg.threshold - 1, after, cfg.confirmationPoll, n, i + 1);
        MonitorInduction(step, cfg, confirmed, n, next, P);
      } else {
        MonitorInduction(step, cfg, after, n, i + 1, P);
      }
    }
  }

  lemma InvIsKept(cfg: Config, turns: seq<Turn>)
    requires ValidConfig(cfg) && AllTrusted(cfg, turns)
    ensures KeptBy(StepOf(cfg, turns), |turns|, s => Inv(cfg, s))
  {
    forall s: NodeState, now: int, i: nat | Inv(cfg, s) && i < |turns| ensures Inv(cfg, StepOf(cfg, turns)(s, now, i)) {
      TurnKeeps(cfg, s, now, turns[i]);
    }
  }

  /** A whole run of the monitor from its start at `now`. */
  ghost function Run(cfg: Config, now: int, initial: Answer<seq<G.Entry>>, turns: seq<Turn>): NodeState
    requires cfg.pollInterval > 0
  {
    Monitoring(cfg, StartAt(now), initial, turns)
  }

  lemma RunKeeps(cfg: Config, now: int, initial: Answer<seq<G.Entry>>, turns: seq<Turn>)
    requires ValidConfig(cfg) && AllTrusted(cfg, turns)
    ensures Inv(cfg, Run(cfg, now, initial, turns))
  {
    RefreshingKeeps(cfg, StartAt(now), initial);
    InvIsKept(cfg, turns);
    MonitorInduction(StepOf(cfg, turns), cfg, Ticking(cfg, Refreshing(cfg, StartAt(now), initial)), |turns|, 0, s => Inv(cfg, s));
  }

  /**
   No premature command.  With the fast path off, in any run of the monitor, whatever the
   answers, whenever the node sets out to become active, or passive, the last threshold
   successful refreshes were all leaderless.
   */
  lemma NoPrematureCommand(cfg: Config, now: int, initial: Answer<seq<G.Entry>>, turns: seq<Turn>, i: nat)
    requires ValidConfig(cfg) && !cfg.bypass
    requires i < |Run(cfg, now, initial, turns).trace| && IsCommand(Run(cfg, now, initial, turns).trace[i])
    ensures LastLeaderless(Samples(Run(cfg, now, initial, turns).trace[..i]), cfg.threshold)
  {
    RunKeeps(cfg, now, initial, turns);
  }

  /**
   In any run, whatever the settings and the answers, the count is the length of the trailing
   leaderless run; failed refreshes are skipped.
   */
  lemma CountOverRuns(cfg: Config, now: int, initial: Answer<seq<G.Entry>>, turns: seq<Turn>)
    requires cfg.pollInterval > 0
    ensures Run(cfg, now, initial, turns).view.count == Trailing(Samples(Run(cfg, now, initial, turns).trace))
  {
    RefreshingCounts(cfg, StartAt(now), initial);
    var step, counts := StepOf(cfg, turns), (s: NodeState) => CountIsTrailing(s);
    forall s: NodeState, later: int, i: nat | CountIsTrailing(s) && i < |turns| ensures CountIsTrailing(step(s, later, i)) {
      CycleCounts(cfg, Sampling(cfg, s, turns[i].samples, later), turns[i].cycle);
    }
    assert KeptBy(step, |turns|, counts) by {
      hide StepOf, CountIsTrailing;
    }
    MonitorInduction(step, cfg, Ticking(cfg, Refreshing(cfg, StartAt(now), initial)), |turns|, 0, counts);
  }

  /**
   Stability.  In any run in which every successful refresh shows a voting leader, declared
   or not, no role command is ever run, whatever refreshes fail in between.
   */
  lemma NoCommandsWhileLed(cfg: Config, now: int, initial: Answer<seq<G.Entry>>, turns: seq<Turn>)
    requires ValidConfig(cfg) && AllTrusted(cfg, turns)
    requires !SawLeaderless(Run(cfg, now, initial, turns).trace)
    ensures forall e :: e in Run(cfg, now, initial, turns).trace ==> !IsCommand(e)
  {
    RunKeeps(cfg, now, initial, turns);
  }

  /** A look is logged when it happens: as lost if it failed, else as leaderless exactly when no entry votes under the active key. */
  lemma LeaderlessSampleMeans(cfg: Config, s: NodeState, answer: Answer<seq<G.Entry>>)
    requires ValidConfig(cfg)
    ensures Refreshing(cfg, s, answer).trace
         == s.trace + [if answer.Ok? then Sample(s.clock, !LedIn(Readings(cfg.gossip, s.view.cache, answer.value)))
                       else SampleLost(s.clock)]
  {
    if answer.Ok? {
      RefreshRefinesReadings(cfg.gossip, s.view, answer.value);
    }
  }

  // ---------------------------------------------------------------- stability, told by the answers

  /**
   If it succeeds, the answer is truthful and some entry under the active key is cleared by
   its own answers; with the fast path on, none is accused besides.
   */
  ghost predicate Reassuring(owner: string -> string, cfg: Config, answer: Answer<seq<G.Entry>>)
  {
    answer.Ok? ==>
      && AllTruthful(owner, cfg.gossip, answer.value)
      && (exists e :: e in answer.value && e.node.pubkey == cfg.gossip.activePubkey && Cleared(e.node.pubkey, e.probe))
      && (cfg.bypass ==> !AnswersSplit(cfg.gossip, answer.value))
  }

  /** Nothing has happened yet but lost samples and samples with a leader. */
  ghost predicate Calm(owner: string -> string, s: NodeState)
  {
    && CacheSound(owner, s.view.cache) && s.view.count == 0
    && forall e :: e in s.trace ==> !IsCommand(e)
  }

  lemma ReassuringRefresh(owner: string -> string, cfg: Config, s: NodeState, answer: Answer<seq<G.Entry>>)
    requires ValidConfig(cfg) && Calm(owner, s) && Reassuring(owner, cfg, answer)
    ensures Calm(owner, Refreshing(cfg, s, answer))
    ensures !(cfg.bypass && Refreshing(cfg, s, answer).view.delinquent)
  {
    if answer.Ok? {
      var es := answer.value;
      RefreshRefinesReadings(cfg.gossip, s.view, es);
      CacheStaysSound(owner, cfg.gossip, s.view.cache, es, |es|);
      TruthIsUnmisled(owner, cfg.gossip, s.view.cache, es);
      ReadingsAreDirect(cfg.gossip, s.view.cache, es);
      SplitsExactly(cfg.gossip, s.view, es);
      var e :| e in es && e.node.pubkey == cfg.gossip.activePubkey && Cleared(e.node.pubkey, e.probe);
      DirectReadingMeaning(cfg.gossip, e);
      assert DirectReading(cfg.gossip, e) in Readings(cfg.gossip, s.view.cache, es);
    }
  }

  lemma CalmTurn(owner: string -> string, cfg: Config, s: NodeState, now: int, turn: Turn)
    requires ValidConfig(cfg) && Calm(owner, s) && Reassuring(owner, cfg, turn.cycle.first)
    ensures Calm(owner, TurnAt(cfg, s, now, turn))
  {
    var ready := Sampling(cfg, s, turn.samples, now);
    ReassuringRefresh(owner, cfg, ready, turn.cycle.first);
    CycleByGate(cfg, ready, turn.cycle);
  }

  /**
   Stability, told by the answers alone.  In any run in which every successful first answer
   of a cycle shows somebody who votes under the active key, whatever answers fail in
   between, no role command is ever run.
   */
  lemma NoCommandsWhileAnswersReassure(
    owner: string -> string, cfg: Config, now: int, initial: Answer<seq<G.Entry>>, turns: seq<Turn>)
    requires ValidConfig(cfg) && Reassuring(owner, cfg, initial)
    requires forall i :: 0 <= i < |turns| ==> Reassuring(owner, cfg, turns[i].cycle.first)
    ensures forall e :: e in Run(cfg, now, initial, turns).trace ==> !IsCommand(e)
  {
    ReassuringRefresh(owner, cfg, StartAt(now), initial);
    var step := StepOf(cfg, turns);
    forall s: NodeState, later: int, i: nat | Calm(owner, s) && i < |turns| ensures Calm(owner, step(s, later, i)) {
      CalmTurn(owner, cfg, s, later, turns[i]);
    }
    var calm := (s: NodeState) => Calm(owner, s);
    assert KeptBy(step, |turns|, calm) by {
      hide Calm, StepOf;
    }
    MonitorInduction(step, cfg, Ticking(cfg, Refreshing(cfg, StartAt(now), initial)), |turns|, 0, calm);
  }
}
