/**
 A round of takeovers: every attempt of the run is detected within a short window and has
 a rank of its own.  If that window, an overshoot, a command and its visibility together
 fit into one poll interval, exactly one node wins: the lowest rank whose command works.
 */
module Round {
  import opened Answers
  import opened Ordering
  import opened Node
  import opened NodeProperties
  import opened RefreshMeaning
  import opened Cluster
  import opened Takeover
  import G = Gossip
  import F = FailoverConfig

  /**
   The network's timing, the window of detection, by how much a takeover delay may overshoot,
   and the poll interval all nodes share.
   */
  datatype Timing = Timing(latency: nat, longest: nat, start: int, skew: nat, slip: nat, poll: int)

  /** All bids were detected in the window, and no two have the same rank. */
  ghost predicate OneRound(cfgs: seq<Config>, t: Timing, bids: seq<Bid>)
  {
    && (forall k :: 0 <= k < |bids| ==> bids[k].node < |cfgs| && t.start <= bids[k].detected <= t.start + t.skew)
    && (forall j, k :: 0 <= j < k < |bids| ==> bids[j].rank != bids[k].rank)
  }

  /** Everybody polls at the same interval, and it leaves room for window, overshoot, command and visibility. */
  ghost predicate RoomToSee(cfgs: seq<Config>, t: Timing)
  {
    && t.skew + t.slip + t.longest + t.latency < t.poll
    && forall i :: 0 <= i < |cfgs| ==> cfgs[i].pollInterval == t.poll
  }

  /** The move is no fall, and a node that wakes overshoots by no more than the slip and gets an answer. */
  ghost predicate Punctual(cfgs: seq<Config>, t: Timing, c: State, m: Move)
    requires Enabled(cfgs, c, m)
  {
    && !m.Falls?
    && (m.Wakes? ==> m.at <= ActsAt(cfgs, c.bids[c.slots[m.node].phase.bid]) + t.slip && Looks(c, m).0.Ok?)
  }

  /** A fair, punctual run in which no leader falls and nobody is seen to lead who was not promoted. */
  ghost predicate CleanRun(cfgs: seq<Config>, t: Timing, c: State, moves: seq<Move>)
    decreases |moves|
  {
    moves == [] ||
    (var before, m := moves[..|moves| - 1], moves[|moves| - 1];
     && CleanRun(cfgs, t, c, before)
     && Enabled(cfgs, After(cfgs, c, before), m) && Punctual(cfgs, t, After(cfgs, c, before), m)
     && Fair(cfgs, t.latency, t.longest, After(cfgs, c, before), m)
     && NoPhantoms(cfgs, After(cfgs, c, before), m))
  }

  // ---------------------------------------------------------------- what every move of a round keeps

  /** The bids still open and the nodes waiting are the same thing. */
  ghost predicate OpenBidsWait(c: State)
  {
    && (forall i :: 0 <= i < |c.slots| && c.slots[i].phase.Waiting? ==>
          var k := c.slots[i].phase.bid;
          && k < |c.bids| && c.bids[k].node == i && !c.bids[k].over
          && c.bids[k].works == Works(c.slots[i].phase.input.active))
    && (forall k :: 0 <= k < |c.bids| && !c.bids[k].over ==>
          c.bids[k].node < |c.slots| && c.slots[c.bids[k].node].phase.Waiting? && c.slots[c.bids[k].node].phase.bid == k)
  }

  /** `p` is what became of its bid, at the time the bid was due or up to the slip later. */
  ghost predicate Earned(cfgs: seq<Config>, t: Timing, c: State, p: Promotion)
  {
    && p.bid < |c.bids| && c.bids[p.bid].node < |cfgs|
    && c.bids[p.bid].over && c.bids[p.bid].works && c.bids[p.bid].node == p.node
    && ActsAt(cfgs, c.bids[p.bid]) <= p.at <= ActsAt(cfgs, c.bids[p.bid]) + t.slip
    && p.fallen.None? && p.at <= c.now && p.done <= p.at + t.longest
  }

  /** At most one promotion, earned by its bid, and no working bid that is over was due before it. */
  ghost predicate OneWinner(cfgs: seq<Config>, t: Timing, c: State)
  {
    && |c.promotions| <= 1
    && (c.promotions != [] ==> Earned(cfgs, t, c, c.promotions[0]))
    && (forall k :: 0 <= k < |c.bids| && c.bids[k].over && c.bids[k].works ==>
          c.bids[k].node < |cfgs| && c.promotions != [] && c.promotions[0].at <= ActsAt(cfgs, c.bids[k]) + t.slip)
  }

  ghost predicate RoundInv(cfgs: seq<Config>, t: Timing, c: State)
  {
    |c.slots| == |cfgs| && OpenBidsWait(c) && PendingBounded(c, t.longest) && OneWinner(cfgs, t, c)
  }

  /** Ranks keep two bids of a round more than an overshoot, a command and the latency apart. */
  lemma RankGap(cfgs: seq<Config>, t: Timing, b: Bid, later: Bid)
    requires RoomToSee(cfgs, t) && b.node < |cfgs| && later.node < |cfgs| && b.rank < later.rank
    requires t.start <= b.detected <= t.start + t.skew && t.start <= later.detected <= t.start + t.skew
    ensures ActsAt(cfgs, b) + t.slip + t.longest + t.latency < ActsAt(cfgs, later)
  {
    var between := later.rank - b.rank - 1;
    assert later.rank * t.poll == b.rank * t.poll + t.poll + between * t.poll;
    assert between * t.poll >= 0;
  }

  /** Whoever attempts without delay comes before everybody with a delay. */
  lemma AttemptFindsNobody(cfgs: seq<Config>, t: Timing, c: State, b: Bid)
    requires RoomToSee(cfgs, t) && OneWinner(cfgs, t, c)
    requires OneRound(cfgs, t, c.bids + [b]) && b.rank == 0 && c.now <= b.detected
    ensures c.promotions == []
  {
    if c.promotions != [] {
      var winner := c.promotions[0].bid;
      var bids := c.bids + [b];
      assert bids[winner] == c.bids[winner] && bids[|c.bids|] == b;
      RankGap(cfgs, t, b, c.bids[winner]);
    }
  }

  lemma StartKeepsRound(cfgs: seq<Config>, t: Timing, c: State, m: Move)
    requires ValidConfigs(cfgs) && RoomToSee(cfgs, t) && RoundInv(cfgs, t, c)
    requires Enabled(cfgs, c, m) && m.Starts? && m.input.active.took <= t.longest
    requires OneRound(cfgs, t, Next(cfgs, c, m).bids)
    ensures RoundInv(cfgs, t, Next(cfgs, c, m))
  {
    hide Refreshing, Begin, G.IPs, Sampling, RoomToSee, OneRound, ValidConfigs;
    var s := Sampling(cfgs[m.node], c.slots[m.node].state, m.samples, m.at);
    var (begun, decision) := Begin(cfgs[m.node], s, m.input);
    if decision.Attempt? {
      AttemptFindsNobody(cfgs, t, c, Next(cfgs, c, m).bids[|c.bids|]);
    }
  }

  /** A waking node goes on exactly when nobody has been promoted in this round yet. */
  lemma WakeGoesOn(cfgs: seq<Config>, t: Timing, c: State, m: Move)
    requires ValidConfigs(cfgs) && RoomToSee(cfgs, t) && RoundInv(cfgs, t, c) && OneRound(cfgs, t, c.bids)
    requires Enabled(cfgs, c, m) && m.Wakes? && Punctual(cfgs, t, c, m)
    requires Fair(cfgs, t.latency, t.longest, c, m) && NoPhantoms(cfgs, c, m)
    ensures var slot := c.slots[m.node];
            && (GoesOn(cfgs[m.node], slot.state.(clock := m.at), slot.phase.input) <==> c.promotions == [])
            && (c.promotions != [] ==> c.promotions[0].at <= m.at)
  {
    hide GoesOn, Readings, LedIn;
    var slot := c.slots[m.node];
    GoesOnUnlessLed(cfgs[m.node], slot.state.(clock := m.at), slot.phase.input);
    if c.promotions != [] {
      var p, b := c.promotions[0], c.bids[slot.phase.bid];
      var winner := c.bids[p.bid];
      assert p.bid != slot.phase.bid;
      assert winner.rank != b.rank;
      if b.rank < winner.rank {
        RankGap(cfgs, t, b, winner);
        assert false;
      }
      RankGap(cfgs, t, winner, b);
      assert p in c.promotions;
    }
  }

  lemma WakeKeepsRound(cfgs: seq<Config>, t: Timing, c: State, m: Move)
    requires ValidConfigs(cfgs) && RoomToSee(cfgs, t) && RoundInv(cfgs, t, c) && OneRound(cfgs, t, c.bids)
    requires Enabled(cfgs, c, m) && m.Wakes? && Punctual(cfgs, t, c, m)
    requires Fair(cfgs, t.latency, t.longest, c, m) && NoPhantoms(cfgs, c, m)
    ensures RoundInv(cfgs, t, Next(cfgs, c, m))
  {
    WakeGoesOn(cfgs, t, c, m);
    hide GoesOn, Finish, Fair, NoPhantoms, OneRound;
  }

  /** Bids are only ever added and closed, so what is one round at the end was one before. */
  lemma RoundBackwards(cfgs: seq<Config>, t: Timing, c: State, m: Move)
    requires Enabled(cfgs, c, m) && !m.Falls? && OneRound(cfgs, t, Next(cfgs, c, m).bids)
    ensures OneRound(cfgs, t, c.bids)
  {
    hide Refreshing, Begin, GoesOn, Finish, G.IPs;
    var bids := Next(cfgs, c, m).bids;
    assert forall k :: 0 <= k < |c.bids| ==>
      bids[k].node == c.bids[k].node && bids[k].rank == c.bids[k].rank && bids[k].detected == c.bids[k].detected;
  }

  lemma {:induction false} RunKeepsRound(cfgs: seq<Config>, t: Timing, c: State, moves: seq<Move>)
    requires ValidConfigs(cfgs) && RoomToSee(cfgs, t)
    requires Initial(cfgs, c) && CleanRun(cfgs, t, c, moves)
    requires OneRound(cfgs, t, After(cfgs, c, moves).bids)
    ensures RoundInv(cfgs, t, After(cfgs, c, moves))
    decreases |moves|
  {
    if moves == [] {
    } else {
      var before, m := moves[..|moves| - 1], moves[|moves| - 1];
      var b := After(cfgs, c, before);
      hide Next, NoPhantoms, RoundInv, OneRound, RoomToSee;
      RoundBackwards(cfgs, t, b, m);
      RunKeepsRound(cfgs, t, c, before);
      if m.Starts? {
        StartKeepsRound(cfgs, t, b, m);
      } else {
        WakeKeepsRound(cfgs, t, b, m);
      }
    }
  }

  /** Every attempt has come to an end. */
  ghost predicate Settled(c: State)
  {
    forall i :: 0 <= i < |c.slots| ==> c.slots[i].phase.Idle?
  }

  /** The bid `k` won: its node alone was promoted, rank * pollInterval after it detected the loss, up to the slip. */
  ghost predicate Wins(cfgs: seq<Config>, t: Timing, c: State, k: nat)
  {
    && k < |c.bids| && c.bids[k].node < |cfgs|
    && |c.promotions| == 1
    && c.promotions[0].bid == k && c.promotions[0].node == c.bids[k].node
    && 0 <= c.promotions[0].at - (c.bids[k].detected + c.bids[k].rank * cfgs[c.bids[k].node].pollInterval) <= t.slip
  }

  /**
   The single winner.  When a round has settled, nobody was promoted if no attempt could
   succeed; otherwise exactly one node was, the one of lowest rank whose command works.
   */
  lemma {:induction false} SingleWinner(cfgs: seq<Config>, t: Timing, c: State, moves: seq<Move>)
    requires ValidConfigs(cfgs) && RoomToSee(cfgs, t)
    requires Initial(cfgs, c) && CleanRun(cfgs, t, c, moves)
    requires OneRound(cfgs, t, After(cfgs, c, moves).bids) && Settled(After(cfgs, c, moves))
    ensures var d := After(cfgs, c, moves);
            && (d.promotions == [] <==> forall k :: 0 <= k < |d.bids| ==> !d.bids[k].works)
            && (forall k :: 0 <= k < |d.bids| && d.bids[k].works
                  && (forall j :: 0 <= j < |d.bids| && d.bids[j].works ==> d.bids[k].rank <= d.bids[j].rank)
                  ==> Wins(cfgs, t, d, k))
  {
    RunKeepsRound(cfgs, t, c, moves);
    hide CleanRun, After;
    var d := After(cfgs, c, moves);
    assert forall k :: 0 <= k < |d.bids| ==> d.bids[k].over;
    forall k | 0 <= k < |d.bids| && d.bids[k].works
             && forall j :: 0 <= j < |d.bids| && d.bids[j].works ==> d.bids[k].rank <= d.bids[j].rank
      ensures Wins(cfgs, t, d, k)
    {
      var winner := d.promotions[0].bid;
      if winner != k {
        assert d.bids[k].rank < d.bids[winner].rank;
        RankGap(cfgs, t, d.bids[k], d.bids[winner]);
      }
    }
  }

  // ---------------------------------------------------------------- where the ranks come from

  /** The bid's rank is the one its node holds by priority, or else by IP among the peers it saw. */
  ghost predicate RankedBid(cfgs: seq<Config>, b: Bid)
  {
    && b.node < |cfgs|
    && var cfg := cfgs[b.node];
       && cfg.selfIP in b.seen
       && match cfg.priorityRanks
          case Some(ranks) => cfg.selfIP in ranks && b.rank == ranks[cfg.selfIP]
          case None => b.rank == RankOf(b.seen, StrLess, cfg.selfIP)
  }

  ghost predicate RankedBids(cfgs: seq<Config>, c: State)
  {
    forall k :: 0 <= k < |c.bids| ==> RankedBid(cfgs, c.bids[k])
  }

  lemma RankOfView(cfg: Config, view: G.View, rank: nat)
    requires ValidConfig(cfg) && G.HasIP(view, cfg.selfIP) && TakeoverRank(cfg, view) == Some(rank)
    ensures cfg.selfIP in G.IPs(view.peers)
    ensures cfg.priorityRanks.Some? ==> rank == cfg.priorityRanks.value[cfg.selfIP]
    ensures cfg.priorityRanks.None? ==> rank == RankOf(G.IPs(view.peers), StrLess, cfg.selfIP)
  {
  }

  lemma MoveRanksBids(cfgs: seq<Config>, c: State, m: Move)
    requires ValidConfigs(cfgs) && Enabled(cfgs, c, m) && RankedBids(cfgs, c)
    requires m.Starts? ==> Trusted(cfgs[m.node], m.input)
    ensures RankedBids(cfgs, Next(cfgs, c, m))
  {
    hide Refreshing, TakeoverRank, Begin, GoesOn, Finish, G.HasIP, G.IPs;
    if m.Starts? {
      var cfg, s := cfgs[m.node], Sampling(cfgs[m.node], c.slots[m.node].state, m.samples, m.at);
      var (begun, decision) := Begin(cfg, s, m.input);
      if decision.Attempt? || decision.Wait? {
        BiddersSawNoLeader(cfg, s, m.input);
        RankOfView(cfg, Refreshing(cfg, s, m.input.first).view, if decision.Attempt? then 0 else decision.rank);
      }
    }
  }

  lemma {:induction false} RunRanksBids(cfgs: seq<Config>, t: Timing, c: State, moves: seq<Move>)
    requires ValidConfigs(cfgs) && Initial(cfgs, c) && CleanRun(cfgs, t, c, moves)
    ensures RankedBids(cfgs, After(cfgs, c, moves))
    decreases |moves|
  {
    if moves == [] {
    } else {
      var before, m := moves[..|moves| - 1], moves[|moves| - 1];
      RunRanksBids(cfgs, t, c, before);
      hide Next, RankedBids, NoPhantoms;
      MoveRanksBids(cfgs, After(cfgs, c, before), m);
    }
  }

  /** Every node attempts at most once, and no two nodes share an IP. */
  ghost predicate OneAttemptEach(cfgs: seq<Config>, bids: seq<Bid>)
  {
    && (forall k :: 0 <= k < |bids| ==> bids[k].node < |cfgs|)
    && (forall j, k :: 0 <= j < k < |bids| ==> cfgs[bids[j].node].selfIP != cfgs[bids[k].node].selfIP)
  }

  ghost predicate DetectedInWindow(t: Timing, bids: seq<Bid>)
  {
    forall k :: 0 <= k < |bids| ==> t.start <= bids[k].detected <= t.start + t.skew
  }

  // ---------------------------------------------------------------- ranks by shared priorities

  /** All nodes rank by the priorities `S`. */
  ghost predicate SharedPriorities(cfgs: seq<Config>, S: set<F.RankEntry>)
  {
    F.Rankable(S) &&
    forall i :: 0 <= i < |cfgs| ==> cfgs[i].priorityRanks.Some? && F.RankedBy(cfgs[i].priorityRanks.value, S)
  }

  /** `a` comes before `b` in the priorities: a smaller value. */
  ghost predicate Precedes(S: set<F.RankEntry>, a: string, b: string)
  {
    exists e, f :: e in S && f in S && e.ip == a && f.ip == b && e.priority < f.priority
  }

  lemma PriorityDecides(cfgs: seq<Config>, S: set<F.RankEntry>, b: Bid, d: Bid)
    requires SharedPriorities(cfgs, S) && RankedBid(cfgs, b) && RankedBid(cfgs, d)
    ensures Precedes(S, cfgs[b.node].selfIP, cfgs[d.node].selfIP) <==> b.rank < d.rank
    ensures cfgs[b.node].selfIP != cfgs[d.node].selfIP ==> b.rank != d.rank
  {
    var mine, ranks := cfgs[b.node].selfIP, cfgs[b.node].priorityRanks.value;
    var theirs := cfgs[d.node].selfIP;
    F.SamePrioritiesSameRanks(ranks, cfgs[d.node].priorityRanks.value, S);
    F.PriorityRanksInOrder(ranks, S);
    var e :| e in S && e.ip == mine;
    var f :| f in S && f.ip == theirs;
    assert e.priority < f.priority <==> b.rank < d.rank;
  }

  /**
   The single winner by priority.  Nodes that share their priorities and attempt once each
   have ranks of their own, so the round is won by the working node of smallest priority value.
   */
  lemma SingleWinnerByPriority(
    cfgs: seq<Config>, t: Timing, c: State, moves: seq<Move>, S: set<F.RankEntry>, k: nat)
    requires ValidConfigs(cfgs) && RoomToSee(cfgs, t) && SharedPriorities(cfgs, S)
    requires Initial(cfgs, c) && CleanRun(cfgs, t, c, moves) && Settled(After(cfgs, c, moves))
    requires var bids := After(cfgs, c, moves).bids;
             && OneAttemptEach(cfgs, bids) && DetectedInWindow(t, bids)
             && k < |bids| && bids[k].works
             && forall j :: 0 <= j < |bids| && bids[j].works && j != k ==>
                  Precedes(S, cfgs[bids[k].node].selfIP, cfgs[bids[j].node].selfIP)
    ensures Wins(cfgs, t, After(cfgs, c, moves), k)
  {
    RunRanksBids(cfgs, t, c, moves);
    hide CleanRun, After, Precedes, SharedPriorities, RankedBid, RoomToSee, Wins, ValidConfigs;
    var d := After(cfgs, c, moves);
    forall i, j | 0 <= i < j < |d.bids| ensures d.bids[i].rank != d.bids[j].rank {
      PriorityDecides(cfgs, S, d.bids[i], d.bids[j]);
    }
    forall j | 0 <= j < |d.bids| && d.bids[j].works ensures d.bids[k].rank <= d.bids[j].rank {
      if j != k {
        PriorityDecides(cfgs, S, d.bids[k], d.bids[j]);
      }
    }
    SingleWinner(cfgs, t, c, moves);
  }

  /** What a node was configured with, before it added itself to its peers. */
  datatype Settings = Settings(name: string, own: Option<int>, peers: map<string, F.Peer>)

  /** Every node was initialised from valid settings that follow the one assignment `all`. */
  ghost predicate OneAssignment(cfgs: seq<Config>, settings: seq<Settings>, all: map<string, int>)
  {
    && |cfgs| == |settings| > 0
    && forall i :: 0 <= i < |cfgs| ==>
         && settings[i].name !in settings[i].peers
         && F.AllOrNothing(settings[i].own, settings[i].peers)
         && F.Follows(all, cfgs[i].selfIP, settings[i].own, settings[i].peers)
         && RanksFrom(cfgs[i], settings[i].own, settings[i].peers[settings[i].name := F.Peer(cfgs[i].selfIP, None)])
  }

  /** Nodes configured by one assignment share their priorities, and these rank as it says. */
  lemma AssignmentIsShared(cfgs: seq<Config>, settings: seq<Settings>, all: map<string, int>)
    requires OneAssignment(cfgs, settings, all)
    ensures SharedPriorities(cfgs, F.Assigned(all))
    ensures forall a, b :: a in all && b in all ==> (Precedes(F.Assigned(all), a, b) <==> all[a] < all[b])
  {
    F.FollowedIsRankable(all, cfgs[0].selfIP, settings[0].own, settings[0].peers);
    forall i | 0 <= i < |cfgs|
      ensures cfgs[i].priorityRanks.Some? && F.RankedBy(cfgs[i].priorityRanks.value, F.Assigned(all))
    {
      F.FollowersShareEntries(all, cfgs[i].selfIP, settings[i].own, settings[i].peers, settings[i].name);
    }
    forall a, b | a in all && b in all && all[a] < all[b] ensures Precedes(F.Assigned(all), a, b) {
      assert F.RankEntry(a, all[a]) in F.Assigned(all) && F.RankEntry(b, all[b]) in F.Assigned(all);
    }
  }

  /** The single winner of nodes configured by one assignment: the working node of smallest priority value. */
  lemma SingleWinnerByAssignment(
    cfgs: seq<Config>, settings: seq<Settings>, all: map<string, int>, t: Timing, c: State, moves: seq<Move>, k: nat)
    requires ValidConfigs(cfgs) && RoomToSee(cfgs, t) && OneAssignment(cfgs, settings, all)
    requires Initial(cfgs, c) && CleanRun(cfgs, t, c, moves) && Settled(After(cfgs, c, moves))
    requires var bids := After(cfgs, c, moves).bids;
             && OneAttemptEach(cfgs, bids) && DetectedInWindow(t, bids)
             && k < |bids| && bids[k].works
             && forall j :: 0 <= j < |bids| && bids[j].works && j != k ==>
                  all[cfgs[bids[k].node].selfIP] < all[cfgs[bids[j].node].selfIP]
    ensures Wins(cfgs, t, After(cfgs, c, moves), k)
  {
    hide CleanRun, After, Precedes, SharedPriorities, RoomToSee, Wins, ValidConfigs;
    AssignmentIsShared(cfgs, settings, all);
    SingleWinnerByPriority(cfgs, t, c, moves, F.Assigned(all), k);
  }

  // ---------------------------------------------------------------- ranks by IP under partial views

  /**
   Nobody has priorities, and of two attempting nodes the one with the greater IP sees the
   other, and every smaller IP the other sees.
   */
  ghost predicate ViewsAgree(cfgs: seq<Config>, bids: seq<Bid>)
    requires OneAttemptEach(cfgs, bids)
  {
    && (forall i :: 0 <= i < |cfgs| ==> cfgs[i].priorityRanks.None?)
    && (forall j, k :: 0 <= j < |bids| && 0 <= k < |bids| && StrLess(cfgs[bids[j].node].selfIP, cfgs[bids[k].node].selfIP) ==>
          && cfgs[bids[j].node].selfIP in bids[k].seen
          && Below(bids[j].seen, StrLess, cfgs[bids[j].node].selfIP) <= bids[k].seen)
  }

  lemma IPDecides(cfgs: seq<Config>, bids: seq<Bid>, j: nat, k: nat)
    requires j < |bids| && k < |bids| && OneAttemptEach(cfgs, bids) && ViewsAgree(cfgs, bids)
    requires RankedBid(cfgs, bids[j]) && RankedBid(cfgs, bids[k])
    ensures StrLess(cfgs[bids[j].node].selfIP, cfgs[bids[k].node].selfIP) ==> bids[j].rank < bids[k].rank
    ensures j != k ==> bids[j].rank != bids[k].rank
  {
    StrLessIsTotal();
    var mine, theirs := cfgs[bids[j].node].selfIP, cfgs[bids[k].node].selfIP;
    assert NoTies(StrLess, {mine, theirs});
    if StrLess(mine, theirs) {
      PartialViewsRankApart(StrLess, bids[j].seen, mine, bids[k].seen, theirs);
    } else if StrLess(theirs, mine) {
      PartialViewsRankApart(StrLess, bids[k].seen, theirs, bids[j].seen, mine);
    }
  }

  /** The single winner by IP: the working node whose IP comes first as a string. */
  lemma SingleWinnerByIP(cfgs: seq<Config>, t: Timing, c: State, moves: seq<Move>, k: nat)
    requires ValidConfigs(cfgs) && RoomToSee(cfgs, t)
    requires Initial(cfgs, c) && CleanRun(cfgs, t, c, moves) && Settled(After(cfgs, c, moves))
    requires var bids := After(cfgs, c, moves).bids;
             && OneAttemptEach(cfgs, bids) && DetectedInWindow(t, bids) && ViewsAgree(cfgs, bids)
             && k < |bids| && bids[k].works
             && forall j :: 0 <= j < |bids| && bids[j].works && j != k ==>
                  StrLess(cfgs[bids[k].node].selfIP, cfgs[bids[j].node].selfIP)
    ensures Wins(cfgs, t, After(cfgs, c, moves), k)
  {
    RunRanksBids(cfgs, t, c, moves);
    hide CleanRun, After, ViewsAgree, StrLess, RankedBid, RoomToSee, Wins, ValidConfigs;
    var d := After(cfgs, c, moves);
    forall i, j | 0 <= i < j < |d.bids| ensures d.bids[i].rank != d.bids[j].rank {
      IPDecides(cfgs, d.bids, i, j);
    }
    forall j | 0 <= j < |d.bids| && d.bids[j].works ensures d.bids[k].rank <= d.bids[j].rank {
      if j != k {
        IPDecides(cfgs, d.bids, k, j);
      }
    }
    SingleWinner(cfgs, t, c, moves);
  }
}
