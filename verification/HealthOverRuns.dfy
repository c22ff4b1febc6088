/**
 The health history of whole runs.  The streak a node decides by is the one of all health
 samples so far, in order, and every event of a run was logged by the cycle of one of its
 turns; so a promotion tells something about all samples of the run.
 */
module HealthOverRuns {
  import opened Answers
  import opened Node
  import opened NodeProperties
  import opened RoleGating
  import opened Cluster
  import G = Gossip
  import H = Health

  // ---------------------------------------------------------------- samples and streaks

  /** The samples as good or bad: good is the answer "ok" and nothing else. */
  function AsHistory(samples: seq<HealthSample>): seq<H.Sample>
  {
    seq(|samples|, i requires 0 <= i < |samples| => H.Sample(samples[i].at, samples[i].health == Ok("ok")))
  }

  /** The streak after all of the samples. */
  function StreakOf(cfg: H.Config, samples: seq<HealthSample>): H.Streak
  {
    H.StreakAfter(cfg, AsHistory(samples), |samples|)
  }

  lemma {:induction false} SamePrefixSameStreak(cfg: H.Config, a: seq<H.Sample>, b: seq<H.Sample>, n: nat)
    requires n <= |a| && n <= |b| && forall i :: 0 <= i < n ==> a[i] == b[i]
    ensures H.StreakAfter(cfg, a, n) == H.StreakAfter(cfg, b, n)
  {
    if n == 0 {
    } else {
      SamePrefixSameStreak(cfg, a, b, n - 1);
    }
  }

  /** One more sample, told by its answer. */
  lemma OneMoreSample(cfg: H.Config, samples: seq<HealthSample>, next: HealthSample)
    ensures StreakOf(cfg, samples + [next]) == H.Sampled(cfg, StreakOf(cfg, samples), next.at, next.health == Ok("ok"))
  {
    SamePrefixSameStreak(cfg, AsHistory(samples + [next]), AsHistory(samples), |samples|);
  }

  /** The tracker goes on from any samples before to all samples so far. */
  lemma {:induction false} TrackedIsStreak(cfg: H.Config, before: seq<HealthSample>, samples: seq<HealthSample>, n: nat)
    requires n <= |samples|
    ensures Tracked(cfg, StreakOf(cfg, before), samples, n) == StreakOf(cfg, before + samples[..n])
  {
    if n == 0 {
      assert before + samples[..0] == before;
    } else {
      TrackedIsStreak(cfg, before, samples, n - 1);
      OneMoreSample(cfg, before + samples[..n - 1], samples[n - 1]);
      assert before + samples[..n] == before + samples[..n - 1] + [samples[n - 1]];
    }
  }

  /** More bad answers in a row than the grace count leave no streak. */
  lemma BadAnswersEndStreak(cfg: H.Config, samples: seq<HealthSample>, n: nat)
    requires 0 < n <= |samples| && cfg.unhealthyGraceCount < n
    requires forall i :: |samples| - n <= i < |samples| ==> samples[i].health != Ok("ok")
    ensures StreakOf(cfg, samples).since.None?
  {
    H.OutageEndsStreak(cfg, AsHistory(samples));
  }

  lemma CycleKeepsStreak(cfg: Config, s: NodeState, input: CycleInput)
    ensures Begin(cfg, s, input).0.streak == s.streak && Finish(cfg, s, input).streak == s.streak
    ensures Cycle(cfg, s, input).streak == s.streak
  {
    hide G.Refreshed, GateOf, TakeoverRank;
  }

  // ---------------------------------------------------------------- an induction that knows the turn

  /** The times at which a turn may begin: aligned, or one confirmation interval on while one sample is missing. */
  ghost predicate Timely(cfg: Config, s: NodeState, now: int)
  {
    || (cfg.pollInterval > 0 && now == NextAligned(s.clock, cfg.pollInterval))
    || (cfg.confirmationPoll < cfg.pollInterval && s.view.count == cfg.threshold - 1 && now == s.clock + cfg.confirmationPoll)
  }

  /** Turn `i` takes what holds before it to what holds after it. */
  ghost predicate CarriedOn(step: Step, cfg: Config, n: nat, P: (NodeState, nat) -> bool)
  {
    forall s: NodeState, now: int, i: nat :: P(s, i) && i < n && Timely(cfg, s, now) ==> P(step(s, now, i), i + 1)
  }

  lemma {:induction false} ConfirmCarriesOn(step: Step, cfg: Config, s: NodeState, n: nat, i: nat, P: (NodeState, nat) -> bool)
    requires i <= n && P(s, i) && CarriedOn(step, cfg, n, P)
    requires cfg.confirmationPoll < cfg.pollInterval && s.view.count == cfg.threshold - 1
    ensures var (t, next) := ConfirmFrom(step, cfg.threshold - 1, s, cfg.confirmationPoll, n, i); P(t, next)
    decreases n - i
  {
    if i == n {
    } else {
      var after := step(s, s.clock + cfg.confirmationPoll, i);
      assert Timely(cfg, s, s.clock + cfg.confirmationPoll);
      if after.view.count == cfg.threshold - 1 {
        ConfirmCarriesOn(step, cfg, after, n, i + 1, P);
      }
    }
  }

  /** Every turn is taken, one after the other, and at a time at which it may begin. */
  lemma {:induction false} MonitorCarriesOn(step: Step, cfg: Config, s: NodeState, n: nat, i: nat, P: (NodeState, nat) -> bool)
    requires i <= n && cfg.pollInterval > 0 && P(s, i) && CarriedOn(step, cfg, n, P)
    ensures P(MonitorFrom(step, cfg, s, n, i), n)
    decreases n - i
  {
    hide NextAligned;
    if i == n {
    } else {
      var after := step(s, NextAligned(s.clock, cfg.pollInterval), i);
      assert Timely(cfg, s, NextAligned(s.clock, cfg.pollInterval));
      if cfg.confirmationPoll < cfg.pollInterval && after.view.count == cfg.threshold - 1 {
        ConfirmCarriesOn(step, cfg, after, n, i + 1, P);
        var (confirmed, next) := ConfirmFrom(step, cfg.threshold - 1, after, cfg.confirmationPoll, n, i + 1);
        MonitorCarriesOn(step, cfg, confirmed, n, next, P);
      } else {
        MonitorCarriesOn(step, cfg, after, n, i + 1, P);
      }
    }
  }

  // ---------------------------------------------------------------- the turn behind every event

  /** All samples of the first `n` turns, in order. */
  function Taken(turns: seq<Turn>, n: nat): seq<HealthSample>
    requires n <= |turns|
  {
    if n == 0 then [] else Taken(turns, n - 1) + turns[n - 1].samples
  }

  /**
   Event `j` was logged by the cycle of turn `t`, which began in state `b`: with the streak of
   all samples up to that turn, and on a multiple of the poll interval unless the confirmation
   loop was at work.
   */
  ghost predicate LoggedBy(cfg: Config, turns: seq<Turn>, trace: seq<Event>, j: nat, t: nat, b: NodeState)
  {
    && cfg.pollInterval > 0 && t < |turns| && b.trace <= trace && Cycle(cfg, b, turns[t].cycle).trace <= trace
    && |b.trace| <= j < |Cycle(cfg, b, turns[t].cycle).trace|
    && b.streak == StreakOf(cfg.health, Taken(turns, t + 1))
    && (b.clock % cfg.pollInterval == 0
        || (cfg.confirmationPoll < cfg.pollInterval && b.view.count == cfg.threshold - 1))
  }

  ghost predicate HasTurn(cfg: Config, turns: seq<Turn>, trace: seq<Event>, j: nat)
  {
    exists t: nat, b: NodeState :: LoggedBy(cfg, turns, trace, j, t, b)
  }

  /** What holds of a run after `i` turns: the streak is that of all samples so far, and every event has its turn. */
  ghost predicate Accounted(cfg: Config, turns: seq<Turn>, s: NodeState, i: nat)
  {
    && i <= |turns| && s.streak == StreakOf(cfg.health, Taken(turns, i))
    && forall j: nat :: 1 <= j < |s.trace| ==> HasTurn(cfg, turns, s.trace, j)
  }

  lemma AlignedOrConfirming(cfg: Config, s: NodeState, now: int)
    requires cfg.pollInterval > 0 && Timely(cfg, s, now)
    ensures now % cfg.pollInterval == 0 || (cfg.confirmationPoll < cfg.pollInterval && s.view.count == cfg.threshold - 1)
  {
    if now == NextAligned(s.clock, cfg.pollInterval) {
      AlignedIsMultiple(s.clock, cfg.pollInterval);
    }
  }

  lemma TurnIsAccounted(cfg: Config, turns: seq<Turn>, s: NodeState, now: int, i: nat)
    requires cfg.pollInterval > 0 && i < |turns| && Accounted(cfg, turns, s, i) && Timely(cfg, s, now) && |s.trace| >= 1
    ensures Accounted(cfg, turns, TurnAt(cfg, s, now, turns[i]), i + 1)
    ensures s.trace <= TurnAt(cfg, s, now, turns[i]).trace
  {
    var b, after := Sampling(cfg, s, turns[i].samples, now), TurnAt(cfg, s, now, turns[i]);
    TrackedIsStreak(cfg.health, Taken(turns, i), turns[i].samples, |turns[i].samples|);
    assert turns[i].samples[..|turns[i].samples|] == turns[i].samples;
    CycleKeepsStreak(cfg, b, turns[i].cycle);
    OneCommandPerCycle(cfg, b, turns[i].cycle);
    AlignedOrConfirming(cfg, s, now);
    hide Cycle, StreakOf, Tracked, Timely;
    forall j: nat | 1 <= j < |after.trace| ensures HasTurn(cfg, turns, after.trace, j) {
      if j < |s.trace| {
        assert HasTurn(cfg, turns, s.trace, j);
        var t: nat, c: NodeState :| LoggedBy(cfg, turns, s.trace, j, t, c);
        assert LoggedBy(cfg, turns, after.trace, j, t, c);
      } else {
        assert LoggedBy(cfg, turns, after.trace, j, i, b);
      }
    }
  }

  /**
   Every event of a run but the initial refresh was logged by the cycle of one of its turns,
   which began with the streak of all samples of the turns so far.  The final state has the
   streak of all samples of the run.
   */
  lemma EveryEventHasItsTurn(cfg: Config, now: int, initial: Answer<seq<G.Entry>>, turns: seq<Turn>)
    requires cfg.pollInterval > 0
    ensures Accounted(cfg, turns, Run(cfg, now, initial, turns), |turns|)
  {
    var step, first := StepOf(cfg, turns), Ticking(cfg, Refreshing(cfg, StartAt(now), initial));
    var P := (s: NodeState, i: nat) => Accounted(cfg, turns, s, i) && |s.trace| >= 1;
    forall s: NodeState, later: int, i: nat | P(s, i) && i < |turns| && Timely(cfg, s, later) ensures P(step(s, later, i), i + 1) {
      TurnIsAccounted(cfg, turns, s, later, i);
    }
    MonitorCarriesOn(step, cfg, first, |turns|, 0, P);
  }

  // ---------------------------------------------------------------- promotions and outages

  ghost predicate TimesDoNotFall(history: seq<H.Sample>)
  {
    forall i, j :: 0 <= i < j < |history| ==> history[i].at <= history[j].at
  }

  lemma {:induction false} TakenIsPrefix(turns: seq<Turn>, m: nat, n: nat)
    requires m <= n <= |turns|
    ensures Taken(turns, m) <= Taken(turns, n)
  {
    if m == n {
    } else {
      TakenIsPrefix(turns, m, n - 1);
    }
  }

  /** Whoever is eligible by the streak of some samples has had no outage lately. */
  lemma EligibleMeansNoOutage(cfg: H.Config, samples: seq<HealthSample>, now: int)
    requires TimesDoNotFall(AsHistory(samples))
    requires var since := StreakOf(cfg, samples).since; since.Some? && now - since.value >= cfg.minimumDuration
    ensures H.NoOutageLately(cfg, AsHistory(samples), now)
  {
    var history := AsHistory(samples);
    forall i: nat | i < |history| && H.Exhausted(cfg, history, i) ensures now - history[i].at >= cfg.minimumDuration {
      H.NoRecentOutage(cfg, history, now, i);
    }
  }

  /**
   Promotions over runs, by the answers alone.  Whenever the node sets out to become active
   in a run, the local answer in that turn is "ok", and of all health samples of the turns so
   far none exhausted the grace within the minimum duration before that cycle began.
   */
  lemma PromotionsNeedHealthyRuns(cfg: Config, now: int, initial: Answer<seq<G.Entry>>, turns: seq<Turn>, j: nat)
    requires cfg.pollInterval > 0 && TimesDoNotFall(AsHistory(Taken(turns, |turns|)))
    requires var trace := Run(cfg, now, initial, turns).trace; j < |trace| && trace[j].BecomeActive?
    ensures exists t: nat, b: NodeState ::
              && LoggedBy(cfg, turns, Run(cfg, now, initial, turns).trace, j, t, b)
              && turns[t].cycle.health == Ok("ok")
              && H.NoOutageLately(cfg.health, AsHistory(Taken(turns, t + 1)), b.clock)
  {
    hide Run, LoggedBy, AsHistory, H.NoOutageLately;
    EveryEventHasItsTurn(cfg, now, initial, turns);
    RunBeginsWithALook(cfg, now, initial, turns);
    var trace := Run(cfg, now, initial, turns).trace;
    assert HasTurn(cfg, turns, trace, j);
    var t: nat, b: NodeState :| LoggedBy(cfg, turns, trace, j, t, b);
    PromotionOfTurn(cfg, turns, trace, j, t, b);
  }

  lemma PromotionOfTurn(cfg: Config, turns: seq<Turn>, trace: seq<Event>, j: nat, t: nat, b: NodeState)
    requires TimesDoNotFall(AsHistory(Taken(turns, |turns|)))
    requires LoggedBy(cfg, turns, trace, j, t, b) && j < |trace| && trace[j].BecomeActive?
    ensures t < |turns| && turns[t].cycle.health == Ok("ok")
    ensures H.NoOutageLately(cfg.health, AsHistory(Taken(turns, t + 1)), b.clock)
  {
    hide Cycle, StreakOf, Taken, H.NoOutageLately, NewEvents, TimesDoNotFall, AsHistory;
    LoggedIsNew(cfg, turns, trace, j, t, b);
    PromoterIsFit(cfg, b, turns[t].cycle, trace[j]);
    TakenIsPrefix(turns, t + 1, |turns|);
    PrefixTimes(Taken(turns, t + 1), Taken(turns, |turns|));
    EligibleMeansNoOutage(cfg.health, Taken(turns, t + 1), b.clock);
  }

  lemma PrefixTimes(a: seq<HealthSample>, b: seq<HealthSample>)
    requires a <= b && TimesDoNotFall(AsHistory(b))
    ensures TimesDoNotFall(AsHistory(a))
  {
    forall i, j | 0 <= i < j < |a| ensures AsHistory(a)[i].at <= AsHistory(a)[j].at {
      assert AsHistory(b)[i].at <= AsHistory(b)[j].at;
    }
  }

  lemma LoggedIsNew(cfg: Config, turns: seq<Turn>, trace: seq<Event>, j: nat, t: nat, b: NodeState)
    requires LoggedBy(cfg, turns, trace, j, t, b)
    ensures j < |trace| && trace[j] in NewEvents(cfg, b, turns[t].cycle)
  {
    OneCommandPerCycle(cfg, b, turns[t].cycle);
    hide Cycle, StreakOf;
    var after := Cycle(cfg, b, turns[t].cycle).trace;
    assert trace[j] == after[j] == NewEvents(cfg, b, turns[t].cycle)[j - |b.trace|];
  }

  /** A run begins with a look of its own, at once. */
  lemma RunBeginsWithALook(cfg: Config, now: int, initial: Answer<seq<G.Entry>>, turns: seq<Turn>)
    requires cfg.pollInterval > 0
    ensures var trace := Run(cfg, now, initial, turns).trace; |trace| > 0 && !IsCommand(trace[0]) && trace[0].at == now
  {
    var step, first := StepOf(cfg, turns), Ticking(cfg, Refreshing(cfg, StartAt(now), initial));
    var P := (s: NodeState) => |s.trace| > 0 && !IsCommand(s.trace[0]) && s.trace[0].at == now;
    forall s: NodeState, later: int, i: nat | P(s) && i < |turns| ensures P(step(s, later, i)) {
      OneCommandPerCycle(cfg, Sampling(cfg, s, turns[i].samples, later), turns[i].cycle);
    }
    MonitorInduction(step, cfg, first, |turns|, 0, P);
  }

  // ---------------------------------------------------------------- the cluster

  /** All samples that node `i` takes in the moves, in order. */
  function SamplesOf(moves: seq<Move>, i: nat): seq<HealthSample>
  {
    if moves == [] then []
    else
      var before, m := SamplesOf(moves[..|moves| - 1], i), moves[|moves| - 1];
      if m.Starts? && m.node == i then before + m.samples else before
  }

  /** The nodes have just been initialised, as far as their health goes. */
  ghost predicate NoStreaks(c: State)
  {
    forall i :: 0 <= i < |c.slots| ==> c.slots[i].state.streak == H.NO_STREAK
  }

  lemma MoveTracksHealth(cfgs: seq<Config>, c: State, m: Move, i: nat, taken: seq<HealthSample>)
    requires Enabled(cfgs, c, m) && i < |cfgs| && c.slots[i].state.streak == StreakOf(cfgs[i].health, taken)
    ensures var d := Next(cfgs, c, m);
            && |d.slots| == |cfgs|
            && d.slots[i].state.streak
               == StreakOf(cfgs[i].health, if m.Starts? && m.node == i then taken + m.samples else taken)
  {
    hide Cycle, Begin, Finish, GoesOn, Refreshing, G.IPs, StreakOf, Tracked;
    match m
    case Starts(k, at, samples, input) =>
      TrackedIsStreak(cfgs[k].health, taken, samples, |samples|);
      assert samples[..|samples|] == samples;
      CycleKeepsStreak(cfgs[k], Sampling(cfgs[k], c.slots[k].state, samples, at), input);
    case Wakes(k, at) => CycleKeepsStreak(cfgs[k], c.slots[k].state.(clock := at), c.slots[k].phase.input);
    case Falls(_, _) =>
  }

  /** In every run of the cluster each node's streak is that of all its samples so far. */
  lemma {:induction false} ClusterTracksHealth(
    cfgs: seq<Config>, latency: int, longest: int, c: State, moves: seq<Move>, i: nat)
    requires Initial(cfgs, c) && NoStreaks(c) && FairRun(cfgs, latency, longest, c, moves) && i < |cfgs|
    ensures var d := After(cfgs, c, moves);
            |d.slots| == |cfgs| && d.slots[i].state.streak == StreakOf(cfgs[i].health, SamplesOf(moves, i))
    decreases |moves|
  {
    if moves == [] {
    } else {
      var before, m := moves[..|moves| - 1], moves[|moves| - 1];
      ClusterTracksHealth(cfgs, latency, longest, c, before, i);
      hide Next, Fair, StreakOf;
      MoveTracksHealth(cfgs, After(cfgs, c, before), m, i, SamplesOf(before, i));
    }
  }

  /** Bid `b` was made by move `m`, and no sample of its node so far exhausted the grace lately. */
  ghost predicate SoundBid(cfgs: seq<Config>, moves: seq<Move>, b: Bid, m: nat)
  {
    && m < |moves| && b.node < |cfgs| && moves[m].Starts? && moves[m].node == b.node && moves[m].at == b.detected
    && moves[m].input.health == Ok("ok")
    && H.NoOutageLately(cfgs[b.node].health, AsHistory(SamplesOf(moves[..m + 1], b.node)), b.detected)
  }

  ghost predicate IsSound(cfgs: seq<Config>, moves: seq<Move>, b: Bid)
  {
    exists m: nat :: SoundBid(cfgs, moves, b, m)
  }

  ghost predicate SoundBids(cfgs: seq<Config>, moves: seq<Move>, c: State)
  {
    forall k :: 0 <= k < |c.bids| ==> IsSound(cfgs, moves, c.bids[k])
  }

  ghost predicate AllTimesInOrder(cfgs: seq<Config>, moves: seq<Move>)
  {
    forall i: nat :: i < |cfgs| ==> TimesDoNotFall(AsHistory(SamplesOf(moves, i)))
  }

  lemma BidderIsSound(cfg: Config, s: NodeState, input: CycleInput, taken: seq<HealthSample>)
    requires s.streak == StreakOf(cfg.health, taken) && TimesDoNotFall(AsHistory(taken))
    requires Begin(cfg, s, input).1.Attempt? || Begin(cfg, s, input).1.Wait?
    ensures input.health == Ok("ok") && H.NoOutageLately(cfg.health, AsHistory(taken), s.clock)
  {
    hide G.Refreshed, TakeoverRank, H.NoOutageLately, StreakOf, AsHistory;
    EligibleMeansNoOutage(cfg.health, taken, s.clock);
  }

  /** How one move changes the bids: at most one is added, by a node that starts and decides to bid. */
  lemma MoveAddsBid(cfgs: seq<Config>, c: State, m: Move)
    requires Enabled(cfgs, c, m)
    ensures var d := Next(cfgs, c, m);
            && |c.bids| <= |d.bids| <= |c.bids| + 1
            && (forall k :: 0 <= k < |c.bids| ==> d.bids[k].node == c.bids[k].node && d.bids[k].detected == c.bids[k].detected)
            && (|d.bids| > |c.bids| ==>
                  && m.Starts? && d.bids[|c.bids|].node == m.node && d.bids[|c.bids|].detected == m.at
                  && var decision := Begin(cfgs[m.node], Sampling(cfgs[m.node], c.slots[m.node].state, m.samples, m.at), m.input).1;
                     decision.Attempt? || decision.Wait?)
  {
    hide Begin, Finish, GoesOn, Refreshing, G.IPs, Sampling;
  }

  lemma {:induction false} EarlierSamplesArePrefix(moves: seq<Move>, n: nat, i: nat)
    requires n <= |moves|
    ensures SamplesOf(moves[..n], i) <= SamplesOf(moves, i)
  {
    if n == |moves| {
      assert moves[..n] == moves;
    } else {
      EarlierSamplesArePrefix(moves[..|moves| - 1], n, i);
      assert moves[..|moves| - 1][..n] == moves[..n];
    }
  }

  lemma EarlierTimesInOrder(cfgs: seq<Config>, moves: seq<Move>, n: nat)
    requires n <= |moves| && AllTimesInOrder(cfgs, moves)
    ensures AllTimesInOrder(cfgs, moves[..n])
  {
    forall i: nat | i < |cfgs| ensures TimesDoNotFall(AsHistory(SamplesOf(moves[..n], i))) {
      EarlierSamplesArePrefix(moves, n, i);
      PrefixTimes(SamplesOf(moves[..n], i), SamplesOf(moves, i));
    }
  }

  lemma OldBidStaysSound(cfgs: seq<Config>, moves: seq<Move>, b: Bid, d: Bid, m: nat)
    requires moves != [] && SoundBid(cfgs, moves[..|moves| - 1], b, m) && d.node == b.node && d.detected == b.detected
    ensures SoundBid(cfgs, moves, d, m)
  {
    assert moves[..|moves| - 1][..m + 1] == moves[..m + 1];
  }

  lemma NewBidIsSound(cfgs: seq<Config>, moves: seq<Move>, s: NodeState, taken: seq<HealthSample>, b: Bid)
    requires moves != [] && moves[|moves| - 1].Starts? && b.node < |cfgs|
    requires var m := moves[|moves| - 1];
             && m.node == b.node && m.at == b.detected && s.streak == StreakOf(cfgs[b.node].health, taken)
             && taken + m.samples == SamplesOf(moves, b.node)
             && var decision := Begin(cfgs[b.node], Sampling(cfgs[b.node], s, m.samples, m.at), m.input).1;
                decision.Attempt? || decision.Wait?
    requires TimesDoNotFall(AsHistory(SamplesOf(moves, b.node)))
    ensures SoundBid(cfgs, moves, b, |moves| - 1)
  {
    hide Begin, StreakOf, AsHistory, H.NoOutageLately, Tracked;
    var m, cfg := moves[|moves| - 1], cfgs[b.node];
    TrackedIsStreak(cfg.health, taken, m.samples, |m.samples|);
    assert m.samples[..|m.samples|] == m.samples;
    BidderIsSound(cfg, Sampling(cfg, s, m.samples, m.at), m.input, taken + m.samples);
    assert moves[..|moves|] == moves;
  }

  lemma BidIsSound(cfgs: seq<Config>, moves: seq<Move>, b: State, k: nat)
    requires moves != [] && Enabled(cfgs, b, moves[|moves| - 1]) && SoundBids(cfgs, moves[..|moves| - 1], b)
    requires var i := moves[|moves| - 1].node;
             && b.slots[i].state.streak == StreakOf(cfgs[i].health, SamplesOf(moves[..|moves| - 1], i))
             && TimesDoNotFall(AsHistory(SamplesOf(moves, i)))
    requires k < |Next(cfgs, b, moves[|moves| - 1]).bids|
    ensures IsSound(cfgs, moves, Next(cfgs, b, moves[|moves| - 1]).bids[k])
  {
    hide Next, StreakOf, AsHistory, SoundBid, Begin, Sampling;
    var before, m := moves[..|moves| - 1], moves[|moves| - 1];
    MoveAddsBid(cfgs, b, m);
    var d := Next(cfgs, b, m);
    if k < |b.bids| {
      assert IsSound(cfgs, before, b.bids[k]);
      var l: nat :| SoundBid(cfgs, before, b.bids[k], l);
      OldBidStaysSound(cfgs, moves, b.bids[k], d.bids[k], l);
    } else {
      NewBidIsSound(cfgs, moves, b.slots[m.node].state, SamplesOf(before, m.node), d.bids[k]);
    }
  }

  lemma MoveKeepsBidsSound(cfgs: seq<Config>, moves: seq<Move>, b: State)
    requires moves != [] && Enabled(cfgs, b, moves[|moves| - 1]) && SoundBids(cfgs, moves[..|moves| - 1], b)
    requires var i := moves[|moves| - 1].node;
             && b.slots[i].state.streak == StreakOf(cfgs[i].health, SamplesOf(moves[..|moves| - 1], i))
             && TimesDoNotFall(AsHistory(SamplesOf(moves, i)))
    ensures SoundBids(cfgs, moves, Next(cfgs, b, moves[|moves| - 1]))
  {
    hide Next, StreakOf, AsHistory, IsSound, TimesDoNotFall, SamplesOf;
    var d := Next(cfgs, b, moves[|moves| - 1]);
    forall k | 0 <= k < |d.bids| ensures IsSound(cfgs, moves, d.bids[k]) {
      BidIsSound(cfgs, moves, b, k);
    }
  }

  /**
   Bids over runs of the cluster, by the answers alone: a node that bids answered "ok" in that
   cycle, and of all its samples so far none exhausted the grace within the minimum duration.
   */
  lemma {:induction false} BidsAreSound(cfgs: seq<Config>, latency: int, longest: int, c: State, moves: seq<Move>)
    requires Initial(cfgs, c) && NoStreaks(c) && FairRun(cfgs, latency, longest, c, moves) && AllTimesInOrder(cfgs, moves)
    ensures SoundBids(cfgs, moves, After(cfgs, c, moves))
    decreases |moves|
  {
    if moves == [] {
    } else {
      hide Next, Fair, StreakOf, AsHistory, SoundBids;
      var n := |moves| - 1;
      EarlierTimesInOrder(cfgs, moves, n);
      BidsAreSound(cfgs, latency, longest, c, moves[..n]);
      ClusterTracksHealth(cfgs, latency, longest, c, moves[..n], moves[n].node);
      MoveKeepsBidsSound(cfgs, moves, After(cfgs, c, moves[..n]));
    }
  }
}
