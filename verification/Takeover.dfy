/** Safety of takeovers over every run of N nodes: what a promotion rests on, and how far apart promotions lie. */
module Takeover {
  import opened Answers
  import opened Node
  import opened NodeProperties
  import opened RoleGating
  import opened RefreshMeaning
  import opened Cluster
  import G = Gossip

  // ---------------------------------------------------------------- what one node's part of a move means

  /** The two steps of a delayed cycle are one cycle of the node. */
  lemma TwoStepsAreOneCycle(cfg: Config, s: NodeState, input: CycleInput)
    ensures var (begun, decision) := Begin(cfg, s, input);
            decision.Wait? ==>
              begun.clock == s.clock
              && Cycle(cfg, s, input) == Finish(cfg, begun.(clock := s.clock + decision.rank * cfg.pollInterval), input)
  {
    hide Finish, TakeoverRank, G.Refreshed;
  }

  /** A node bids only if its refresh succeeded and showed no leader; its rank is its takeover rank. */
  lemma BiddersSawNoLeader(cfg: Config, s: NodeState, input: CycleInput)
    requires ValidConfig(cfg) && Trusted(cfg, input)
    requires Begin(cfg, s, input).1.Attempt? || Begin(cfg, s, input).1.Wait?
    ensures input.first.Ok? && !LedIn(Readings(cfg.gossip, s.view.cache, input.first.value))
    ensures var view := Refreshing(cfg, s, input.first).view;
            G.HasIP(view, cfg.selfIP) && TakeoverRank(cfg, view)
              == Some(if Begin(cfg, s, input).1.Attempt? then 0 else Begin(cfg, s, input).1.rank)
  {
    hide G.Refreshed, TakeoverRank, Readings;
    DueMeansGate(cfg, s, input);
    LostShowsNobody(cfg, s, cfg.selfIP);
  }

  /** After a successful second look, a node goes on exactly when that look shows no leader. */
  lemma GoesOnUnlessLed(cfg: Config, s: NodeState, input: CycleInput)
    requires ValidConfig(cfg) && input.second.Ok?
    ensures GoesOn(cfg, s, input) <==> !LedIn(Readings(cfg.gossip, s.view.cache, input.second.value))
  {
    RefreshRefinesReadings(cfg.gossip, s.view, input.second.value);
    ActiveMeansLed(cfg.gossip, s.view, input.second.value);
  }

  /** Whatever move adds a promotion, the node had just looked; and if successfully, it had seen no leader. */
  lemma PromotersSawNoLeader(cfgs: seq<Config>, latency: int, longest: int, c: State, m: Move)
    requires ValidConfigs(cfgs) && Enabled(cfgs, c, m) && Fair(cfgs, latency, longest, c, m) && !m.Falls?
    ensures var d := Next(cfgs, c, m);
            && c.promotions <= d.promotions && |d.promotions| <= |c.promotions| + 1
            && (d.promotions != c.promotions ==>
                  && (d.promotions[|c.promotions|].sighted <==> Looks(c, m).0.Ok?)
                  && (Looks(c, m).0.Ok? ==> !ShowsLeader(cfgs[m.node], Looks(c, m)))
                  && d.promotions[|c.promotions|].at == m.at && d.promotions[|c.promotions|].node == m.node
                  && d.promotions[|c.promotions|].done
                     == m.at + (if m.Starts? then m.input.active.took else c.slots[m.node].phase.input.active.took)
                  && d.promotions[|c.promotions|].fallen.None?)
  {
    hide Readings, G.Refreshed, TakeoverRank, Refreshing, Finish;
    match m
    case Starts(i, at, samples, input) =>
      var s := Sampling(cfgs[i], c.slots[i].state, samples, at);
      if Begin(cfgs[i], s, input).1.Attempt? {
        BiddersSawNoLeader(cfgs[i], s, input);
      }
    case Wakes(i, at) =>
      if c.slots[i].phase.input.second.Ok? {
        GoesOnUnlessLed(cfgs[i], c.slots[i].state.(clock := at), c.slots[i].phase.input);
      }
  }

  /** A command of the active role that was started and did not fail. */
  predicate Succeeds(e: Event)
  {
    e.BecomeActive? && e.outcome in {Unconfirmed, Confirmed}
  }

  lemma PromotingLeaves(cfg: Config, s: NodeState, run: RoleRun)
    ensures var t := Promoting(cfg, s, run).trace;
            |t| == |s.trace| + 1 && s.trace <= t && (Succeeds(t[|s.trace|]) <==> Works(run)) && t[|s.trace|].at == s.clock
  {
  }

  /** A promotion is counted exactly when the moving node's trace gains a successful active command, then. */
  lemma PromotionsAreInTheTrace(cfgs: seq<Config>, c: State, m: Move)
    requires Enabled(cfgs, c, m) && !m.Falls?
    ensures var d := Next(cfgs, c, m);
            var before, grown := c.slots[m.node].state.trace, d.slots[m.node].state.trace;
            && before <= grown
            && (d.promotions != c.promotions <==> exists j :: |before| <= j < |grown| && Succeeds(grown[j]))
            && (forall j :: |before| <= j < |grown| && Succeeds(grown[j]) ==> grown[j].at == m.at)
  {
    hide GateOf, TakeoverRank, G.Refreshed, G.IPs, Promoting, ActsAt;
    match m
    case Starts(i, at, samples, input) =>
      var seen := Refreshing(cfgs[i], Sampling(cfgs[i], c.slots[i].state, samples, at), input.first);
      PromotingLeaves(cfgs[i], seen, input.active);
    case Wakes(i, at) =>
      var input := c.slots[i].phase.input;
      var seen := Refreshing(cfgs[i], c.slots[i].state.(clock := at), input.second);
      PromotingLeaves(cfgs[i], seen, input.active);
  }

  // ---------------------------------------------------------------- separation

  /** Every node's pending command respects the longest duration. */
  ghost predicate PendingBounded(c: State, longest: int)
  {
    forall i :: 0 <= i < |c.slots| && c.slots[i].phase.Waiting? ==> c.slots[i].phase.input.active.took <= longest
  }

  /** `q` started before `p` was visible for sure, or after the node of `p` had fallen. */
  predicate Excused(p: Promotion, q: Promotion, latency: int)
  {
    p.at <= q.at && (q.at < p.done + latency || (p.fallen.Some? && p.fallen.value <= q.at))
  }

  /** Any promotion with a successful deciding look is excused by every earlier one. */
  ghost predicate Separated(c: State, latency: int, longest: int)
  {
    && (forall p, q :: 0 <= p < q < |c.promotions| && c.promotions[q].sighted ==>
          Excused(c.promotions[p], c.promotions[q], latency))
    && (forall p :: 0 <= p < |c.promotions| ==>
          && c.promotions[p].at <= c.now && c.promotions[p].done <= c.promotions[p].at + longest
          && (c.promotions[p].fallen.Some? ==> c.promotions[p].fallen.value <= c.now))
  }

  lemma MoveTakesBoundedTime(cfgs: seq<Config>, latency: int, longest: int, c: State, m: Move)
    requires Enabled(cfgs, c, m) && Fair(cfgs, latency, longest, c, m) && PendingBounded(c, longest)
    ensures var d := Next(cfgs, c, m);
            && PendingBounded(d, longest) && |d.slots| == |cfgs| && d.now == m.at
            && (|d.promotions| > |c.promotions| ==>
                  d.promotions[|c.promotions|].done <= d.promotions[|c.promotions|].at + longest)
  {
    hide Refreshing, Finish, Begin, GoesOn;
  }

  lemma MoveKeepsSeparation(cfgs: seq<Config>, latency: int, longest: int, c: State, m: Move)
    requires ValidConfigs(cfgs) && Enabled(cfgs, c, m) && Fair(cfgs, latency, longest, c, m)
    requires PendingBounded(c, longest) && Separated(c, latency, longest)
    ensures Separated(Next(cfgs, c, m), latency, longest)
  {
    if m.Falls? {
      return;
    }
    PromotersSawNoLeader(cfgs, latency, longest, c, m);
    MoveTakesBoundedTime(cfgs, latency, longest, c, m);
    hide Next, ShowsLeader, Looks;
    var d := Next(cfgs, c, m);
    if d.promotions != c.promotions {
      forall p | 0 <= p < |c.promotions| && d.promotions[|c.promotions|].sighted
        ensures c.promotions[p].fallen.Some? || m.at < c.promotions[p].done + latency
      {
        assert c.promotions[p] in c.promotions;
      }
      assert forall p :: 0 <= p < |c.promotions| ==> d.promotions[p] == c.promotions[p];
    }
  }

  lemma {:induction false} RunIsSeparated(cfgs: seq<Config>, latency: int, longest: int, c: State, moves: seq<Move>)
    requires ValidConfigs(cfgs) && Initial(cfgs, c) && FairRun(cfgs, latency, longest, c, moves)
    ensures PendingBounded(After(cfgs, c, moves), longest) && Separated(After(cfgs, c, moves), latency, longest)
    decreases |moves|
  {
    if moves == [] {
    } else {
      var before, m := moves[..|moves| - 1], moves[|moves| - 1];
      RunIsSeparated(cfgs, latency, longest, c, before);
      hide Next, Fair, Separated, PendingBounded;
      MoveKeepsSeparation(cfgs, latency, longest, After(cfgs, c, before), m);
      MoveTakesBoundedTime(cfgs, latency, longest, After(cfgs, c, before), m);
    }
  }

  /** The node of `p` fell in one of the moves, after it was promoted and no later than `until`. */
  ghost predicate FellBy(moves: seq<Move>, p: Promotion, until: int)
  {
    exists m: nat :: m < |moves| && moves[m].Falls? && moves[m].node == p.node && p.at <= moves[m].at <= until
  }

  /** A move keeps every promotion, marks those of a node that falls, once, and adds none that has fallen. */
  lemma MoveMarksFalls(cfgs: seq<Config>, c: State, m: Move)
    requires Enabled(cfgs, c, m)
    ensures var d := Next(cfgs, c, m);
            && |c.promotions| <= |d.promotions|
            && (forall k :: 0 <= k < |c.promotions| ==>
                  var p := c.promotions[k];
                  d.promotions[k] == p.(fallen := if m.Falls? && m.node == p.node && p.fallen.None? then Some(m.at) else p.fallen))
            && (forall k :: |c.promotions| <= k < |d.promotions| ==> d.promotions[k].fallen.None?)
  {
    hide Begin, Finish, GoesOn, Refreshing, G.IPs, Sampling;
  }

  /** A promotion is marked as fallen only if its node did fall, then. */
  lemma {:induction false} FallenMeansFell(cfgs: seq<Config>, latency: int, longest: int, c: State, moves: seq<Move>, k: nat)
    requires ValidConfigs(cfgs) && Initial(cfgs, c) && FairRun(cfgs, latency, longest, c, moves)
    requires k < |After(cfgs, c, moves).promotions|
    ensures var p := After(cfgs, c, moves).promotions[k]; p.fallen.Some? ==> FellBy(moves, p, p.fallen.value)
    decreases |moves|
  {
    if moves == [] {
    } else {
      hide Next, Fair, PendingBounded, ValidConfigs, FellBy;
      var before, m := moves[..|moves| - 1], moves[|moves| - 1];
      var b := After(cfgs, c, before);
      RunIsSeparated(cfgs, latency, longest, c, before);
      MoveMarksFalls(cfgs, b, m);
      if k < |b.promotions| {
        FallenMeansFell(cfgs, latency, longest, c, before, k);
        FellStays(moves, b.promotions[k], After(cfgs, c, moves).promotions[k]);
      }
    }
  }

  /** One more move takes no fall back, and may be one itself. */
  lemma FellStays(moves: seq<Move>, p: Promotion, q: Promotion)
    requires moves != [] && p.node == q.node && p.at == q.at
    ensures forall until :: FellBy(moves[..|moves| - 1], p, until) ==> FellBy(moves, q, until)
    ensures var m := moves[|moves| - 1]; m.Falls? && m.node == p.node && p.at <= m.at ==> FellBy(moves, q, m.at)
  {
    var before := moves[..|moves| - 1];
    forall until | FellBy(before, p, until) ensures FellBy(moves, q, until) {
      var m: nat :| m < |before| && before[m].Falls? && before[m].node == p.node && p.at <= before[m].at <= until;
      assert moves[m] == before[m];
    }
  }

  /** And when a node falls, each of its promotions so far is marked as fallen by then, for good. */
  lemma {:induction false} FallsAreMarked(
    cfgs: seq<Config>, latency: int, longest: int, c: State, moves: seq<Move>, m: nat, k: nat)
    requires ValidConfigs(cfgs) && Initial(cfgs, c) && FairRun(cfgs, latency, longest, c, moves)
    requires m < |moves| && moves[m].Falls? && k < |After(cfgs, c, moves[..m]).promotions|
    requires After(cfgs, c, moves[..m]).promotions[k].node == moves[m].node
    ensures var made := After(cfgs, c, moves).promotions;
            && k < |made| && made[k].node == moves[m].node
            && made[k].fallen.Some? && made[k].fallen.value <= moves[m].at
    decreases |moves|
  {
    hide Next, Fair, PendingBounded, ValidConfigs;
    var before := moves[..|moves| - 1];
    RunIsSeparated(cfgs, latency, longest, c, before);
    MoveMarksFalls(cfgs, After(cfgs, c, before), moves[|moves| - 1]);
    if m < |moves| - 1 {
      assert before[..m] == moves[..m];
      FallsAreMarked(cfgs, latency, longest, c, before, m, k);
    }
  }

  /**
   Takeover separation.  In every run of N nodes against a fair network, a promotion whose
   own deciding look was successful starts less than the visibility latency plus the duration
   of a command after any earlier one, unless the node of that one had fallen by then.
   */
  lemma TakeoversAreSeparated(
    cfgs: seq<Config>, latency: int, longest: int, c: State, moves: seq<Move>, p: nat, q: nat)
    requires ValidConfigs(cfgs) && Initial(cfgs, c) && FairRun(cfgs, latency, longest, c, moves)
    requires p < q < |After(cfgs, c, moves).promotions| && After(cfgs, c, moves).promotions[q].sighted
    ensures var made := After(cfgs, c, moves).promotions;
            && made[p].at <= made[q].at
            && (made[q].at - made[p].at < latency + longest || FellBy(moves, made[p], made[q].at))
  {
    RunIsSeparated(cfgs, latency, longest, c, moves);
    FallenMeansFell(cfgs, latency, longest, c, moves, p);
  }

  // ---------------------------------------------------------------- a look that fails

  /** Whoever waits has counted a leaderless sample. */
  ghost predicate WaitersCounted(c: State)
  {
    forall i :: 0 <= i < |c.slots| && c.slots[i].phase.Waiting? ==> c.slots[i].state.view.count > 0
  }

  lemma BidderCounted(cfg: Config, s: NodeState, input: CycleInput)
    requires ValidConfig(cfg) && Trusted(cfg, input) && Begin(cfg, s, input).1.Wait?
    ensures Begin(cfg, s, input).0.view.count > 0
  {
    BiddersSawNoLeader(cfg, s, input);
    DueMeansGate(cfg, s, input);
    hide G.Refreshed, TakeoverRank, Readings;
  }

  lemma {:induction false} RunCountsWaiters(cfgs: seq<Config>, latency: int, longest: int, c: State, moves: seq<Move>)
    requires ValidConfigs(cfgs) && Initial(cfgs, c) && FairRun(cfgs, latency, longest, c, moves)
    ensures WaitersCounted(After(cfgs, c, moves))
    decreases |moves|
  {
    if moves == [] {
    } else {
      var before, m := moves[..|moves| - 1], moves[|moves| - 1];
      RunCountsWaiters(cfgs, latency, longest, c, before);
      hide Begin, GoesOn, Finish, Refreshing, G.IPs, Sampling;
      var b := After(cfgs, c, before);
      if m.Starts? {
        var s := Sampling(cfgs[m.node], b.slots[m.node].state, m.samples, m.at);
        if Begin(cfgs[m.node], s, m.input).1.Wait? {
          BidderCounted(cfgs[m.node], s, m.input);
        }
      }
    }
  }

  /**
   Why the look must be successful: in every run a node that wakes and gets no answer
   promotes itself exactly if its command works, whoever leads by then.
   */
  lemma BlindWakersPromote(cfgs: seq<Config>, latency: int, longest: int, c: State, moves: seq<Move>, i: nat, at: int)
    requires ValidConfigs(cfgs) && Initial(cfgs, c) && FairRun(cfgs, latency, longest, c, moves)
    requires Enabled(cfgs, After(cfgs, c, moves), Wakes(i, at))
    requires After(cfgs, c, moves).slots[i].phase.input.second.Failed?
    ensures var b := After(cfgs, c, moves);
            Next(cfgs, b, Wakes(i, at)).promotions
            == b.promotions + Promoted(i, b.slots[i].phase.bid, at, b.slots[i].phase.input.active, false)
  {
    RunCountsWaiters(cfgs, latency, longest, c, moves);
    hide After, FairRun;
  }
}
