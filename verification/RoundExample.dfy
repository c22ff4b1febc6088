/**
 A round that happens.  Three nodes, initialised from one assignment of priorities, take a
 health sample and then, within a second, find that nobody leads.  The command of the first in
 rank fails; the second, one poll interval later and a second late, wins; the third looks
 again when the second is visible, and stands back.  So what the theorems about rounds ask
 for can be met all at once, from the start of the program.
 */
module RoundExample {
  import opened Answers
  import opened Durations
  import opened Ordering
  import opened Node
  import opened RoleGating
  import opened RefreshMeaning
  import opened VoteCache
  import opened Cluster
  import opened Takeover
  import opened Round
  import G = Gossip
  import H = Health
  import F = FailoverConfig

  const NAMES := map["p" := "1", "q" := "2", "r" := "3"]
  const RANKS: map<string, nat> := map["1" := 0, "2" := 1, "3" := 2]
  const ASSIGNMENT := map["1" := 10, "2" := 20, "3" := 30]
  const TIMING := Timing(SECOND, SECOND, 60 * SECOND, SECOND, SECOND, 5 * SECOND)

  function ConfigOf(ip: string): Config
  {
    Config(G.Config("A", NAMES), H.Config(30 * SECOND, 1), ip, 1, 5 * SECOND, 5 * SECOND, false, Some(RANKS))
  }

  function Configs(): seq<Config>
  {
    [ConfigOf("1"), ConfigOf("2"), ConfigOf("3")]
  }

  function PeerAt(ip: string): F.Peer
    requires ip in ASSIGNMENT
  {
    F.Peer(ip, Some(ASSIGNMENT[ip]))
  }

  function AllSettings(): (all: seq<Settings>)
    ensures |all| == 3
  {
    [Settings("p", Some(10), map["q" := PeerAt("2"), "r" := PeerAt("3")]),
     Settings("q", Some(20), map["p" := PeerAt("1"), "r" := PeerAt("3")]),
     Settings("r", Some(30), map["p" := PeerAt("1"), "q" := PeerAt("2")])]
  }

  /** The state of the three nodes when the program starts. */
  function Started(): State
  {
    State([Slot(StartAt(0), Idle), Slot(StartAt(0), Idle), Slot(StartAt(0), Idle)], 0, [], [])
  }

  const SILENT := G.Probe(_ => Failed, Failed)
  const VOTING := G.Probe(_ => Ok(G.VoteTable([G.VoteAccount("A", "v")], [])), Failed)

  /** All nodes are in gossip, none of them under the active key. */
  function NobodyLeads(): seq<G.Entry>
  {
    [G.Entry(G.Node("1", "B"), SILENT), G.Entry(G.Node("2", "C"), SILENT), G.Entry(G.Node("3", "D"), SILENT)]
  }

  /** The second node votes under the active key. */
  function SecondLeads(): seq<G.Entry>
  {
    [G.Entry(G.Node("1", "B"), SILENT), G.Entry(G.Node("2", "A"), VOTING), G.Entry(G.Node("3", "D"), SILENT)]
  }

  function Input(again: seq<G.Entry>, works: bool): CycleInput
  {
    CycleInput(Ok(NobodyLeads()), Ok(H.HEALTH_OK), Ok("passive"), Ok(again),
               RoleRun(true, works, SECOND, Ok("A")), RoleRun(true, true, 0, Failed), Failed)
  }

  const HEALTHY := [HealthSample(10 * SECOND, Ok(H.HEALTH_OK))]

  const ROUND_MOVES := [
    Starts(0, 60 * SECOND, HEALTHY, Input(NobodyLeads(), false)),
    Starts(1, 61 * SECOND, HEALTHY, Input(NobodyLeads(), true)),
    Starts(2, 61 * SECOND, HEALTHY, Input(SecondLeads(), true)),
    Wakes(1, 67 * SECOND),
    Wakes(2, 71 * SECOND)]

  // ---------------------------------------------------------------- the settings

  lemma ThreeIPs()
    ensures "1" != "2" && "1" != "3" && "2" != "3"
  {
    assert "1"[0] != "2"[0] && "1"[0] != "3"[0] && "2"[0] != "3"[0];
  }

  lemma PrioritiesAssigned()
    ensures F.RankedBy(RANKS, F.Assigned(ASSIGNMENT))
  {
    ThreeIPs();
    var one, two, three := F.RankEntry("1", 10), F.RankEntry("2", 20), F.RankEntry("3", 30);
    assert ASSIGNMENT["1"] == 10 && ASSIGNMENT["2"] == 20 && ASSIGNMENT["3"] == 30;
    assert one in F.Assigned(ASSIGNMENT) && two in F.Assigned(ASSIGNMENT) && three in F.Assigned(ASSIGNMENT);
    assert F.Assigned(ASSIGNMENT) == {one, two, three};
    assert Below({one, two, three}, F.EntryLess, one) == {};
    assert Below({one, two, three}, F.EntryLess, two) == {one};
    assert Below({one, two, three}, F.EntryLess, three) == {one, two};
  }

  /** Of three nodes with different priorities, the one at `ip` with the other two as its peers. */
  lemma ThreeFollow(all: map<string, int>, ip: string, x: string, y: string, m: string, n: string)
    requires all.Keys == {ip, x, y} && m != n && x != ip && y != ip && x != y
    requires all[ip] >= 0 && all[x] >= 0 && all[y] >= 0 && all[ip] != all[x] && all[ip] != all[y] && all[x] != all[y]
    ensures var peers := map[m := F.Peer(x, Some(all[x])), n := F.Peer(y, Some(all[y]))];
            F.AllOrNothing(Some(all[ip]), peers) && F.Follows(all, ip, Some(all[ip]), peers)
  {
    var peers := map[m := F.Peer(x, Some(all[x])), n := F.Peer(y, Some(all[y]))];
    assert m in peers && n in peers;
  }

  lemma SettingsFollow(i: nat)
    requires i < 3
    ensures var settings, ip := AllSettings()[i], Configs()[i].selfIP;
            && settings.name !in settings.peers && F.AllOrNothing(settings.own, settings.peers)
            && F.Follows(ASSIGNMENT, ip, settings.own, settings.peers)
            && ip in ASSIGNMENT && settings.own == Some(ASSIGNMENT[ip])
  {
    hide F.AllOrNothing, F.Follows;
    ThreeIPs();
    assert "p"[0] != "q"[0] && "p"[0] != "r"[0] && "q"[0] != "r"[0];
    assert ASSIGNMENT.Keys == {"1", "2", "3"} == {"2", "1", "3"} == {"3", "1", "2"};
    ThreeFollow(ASSIGNMENT, "1", "2", "3", "q", "r");
    ThreeFollow(ASSIGNMENT, "2", "1", "3", "p", "r");
    ThreeFollow(ASSIGNMENT, "3", "1", "2", "p", "q");
  }

  lemma SettingsAreOneAssignment()
    ensures OneAssignment(Configs(), AllSettings(), ASSIGNMENT)
  {
    hide AllSettings, F.Follows, F.AllOrNothing, F.RankedBy, F.Entries;
    PrioritiesAssigned();
    forall i | 0 <= i < 3
      ensures var settings, cfg := AllSettings()[i], Configs()[i];
              && settings.name !in settings.peers && F.AllOrNothing(settings.own, settings.peers)
              && F.Follows(ASSIGNMENT, cfg.selfIP, settings.own, settings.peers)
              && RanksFrom(cfg, settings.own, settings.peers[settings.name := F.Peer(cfg.selfIP, None)])
    {
      SettingsFollow(i);
      var settings, cfg := AllSettings()[i], Configs()[i];
      F.FollowersShareEntries(ASSIGNMENT, cfg.selfIP, settings.own, settings.peers, settings.name);
    }
  }

  lemma ConfigIsValid(ip: string)
    requires ip in {"1", "2", "3"}
    ensures ValidConfig(ConfigOf(ip))
  {
    var name := if ip == "1" then "p" else if ip == "2" then "q" else "r";
    assert NAMES[name] == ip;
  }

  // ---------------------------------------------------------------- what the nodes see

  lemma NobodyIsRead(cfg: G.Config, cache: map<string, string>)
    requires cfg.activePubkey == "A"
    ensures Readings(cfg, cache, NobodyLeads())
         == {Reading(G.Node("1", "B"), false, false), Reading(G.Node("2", "C"), false, false), Reading(G.Node("3", "D"), false, false)}
  {
    var es := NobodyLeads();
    assert ReadingsUpTo(cfg, cache, es, 1) == {ReadingAt(cfg, cache, es, 0)};
    assert ReadingsUpTo(cfg, cache, es, 2) == ReadingsUpTo(cfg, cache, es, 1) + {ReadingAt(cfg, cache, es, 1)};
    assert ReadingsUpTo(cfg, cache, es, 3) == ReadingsUpTo(cfg, cache, es, 2) + {ReadingAt(cfg, cache, es, 2)};
  }

  lemma AllArePresent(cfg: G.Config, cache: map<string, string>, ip: string)
    requires cfg.activePubkey == "A" && ip in {"1", "2", "3"}
    ensures var rs := Readings(cfg, cache, NobodyLeads());
            PresentIn(cfg, rs, ip) && !LedIn(rs) && !LedFromOutside(cfg, rs)
  {
    NobodyIsRead(cfg, cache);
    var rs := Readings(cfg, cache, NobodyLeads());
    hide Readings, NobodyLeads;
    var shown := Reading(G.Node(ip, if ip == "1" then "B" else if ip == "2" then "C" else "D"), false, false);
    assert G.HostOf("1") == "1" && G.HostOf("2") == "2" && G.HostOf("3") == "3";
    assert shown in rs && G.HostOf(shown.node.gossip) == ip;
  }

  /** What a node that looks sees in such an answer: itself, and nobody who leads. */
  lemma NobodyIsSeen(ip: string, s: NodeState)
    requires ip in {"1", "2", "3"}
    ensures var cfg := ConfigOf(ip);
            var view := Refreshing(cfg, s, Ok(NobodyLeads())).view;
            && !LedIn(Readings(cfg.gossip, s.view.cache, NobodyLeads()))
            && view.count == s.view.count + 1 && !G.HasUndeclared(view)
            && G.HasIP(view, ip) && TakeoverRank(cfg, view) == Some(RANKS[ip])
  {
    hide Readings, PresentIn, LedIn, LedFromOutside, NobodyLeads, G.Refreshed;
    var cfg, es := ConfigOf(ip), NobodyLeads();
    ConfigIsValid(ip);
    AllArePresent(cfg.gossip, s.view.cache, ip);
    RefreshRefinesReadings(cfg.gossip, s.view, es);
    VisibleMeansRead(cfg, s, es, ip);
  }

  /** Whatever is cached, the second node is read as a voting leader. */
  lemma SecondIsRead(cfg: G.Config, cache: map<string, string>)
    requires cfg.activePubkey == "A"
    ensures LedIn(Readings(cfg, cache, SecondLeads()))
  {
    var es := SecondLeads();
    VerdictMeaning(CacheUpTo(cfg, cache, es, 1), "A", VOTING);
    assert G.VoteAccount("A", "v") in [G.VoteAccount("A", "v")];
    ReadingIsIn(cfg, cache, es, 3, 1);
  }

  /** One good sample at 10 seconds makes a node eligible from 40 seconds on. */
  lemma EligibleByThen(ip: string, s: NodeState, at: int)
    requires s.streak == H.NO_STREAK && at >= 40 * SECOND
    ensures var streak := Sampling(ConfigOf(ip), s, HEALTHY, at).streak;
            H.LongEnough(ConfigOf(ip).health, streak, at) && streak.since == Some(10 * SECOND)
  {
    hide RoundTo;
    assert Tracked(ConfigOf(ip).health, H.NO_STREAK, HEALTHY, 0) == H.NO_STREAK;
  }

  /** A node that is eligible once its samples are in bids by its rank. */
  lemma Bids(ip: string, s: NodeState, samples: seq<HealthSample>, at: int, again: seq<G.Entry>, works: bool)
    requires ip in {"1", "2", "3"}
    requires H.LongEnough(ConfigOf(ip).health, Sampling(ConfigOf(ip), s, samples, at).streak, at)
    ensures var ready := Sampling(ConfigOf(ip), s, samples, at);
            var decision := Begin(ConfigOf(ip), ready, Input(again, works)).1;
            && decision == (if ip == "1" then Attempt else Wait(RANKS[ip]))
            && !LedIn(Readings(ConfigOf(ip).gossip, s.view.cache, NobodyLeads()))
  {
    NobodyIsSeen(ip, Sampling(ConfigOf(ip), s, samples, at));
    hide TakeoverRank, G.Refreshed, Tracked, NobodyLeads;
  }

  lemma BeginKeepsStreak(cfg: Config, s: NodeState, input: CycleInput)
    ensures Begin(cfg, s, input).0.streak == s.streak
  {
    hide G.Refreshed, GateOf, TakeoverRank;
  }

  // ---------------------------------------------------------------- the moves

  /** `m` may happen in `c` and leads to `d`. */
  ghost predicate Leads(c: State, m: Move, d: State)
  {
    && Enabled(Configs(), c, m) && Punctual(Configs(), TIMING, c, m)
    && Fair(Configs(), TIMING.latency, TIMING.longest, c, m) && NoPhantoms(Configs(), c, m)
    && d == Next(Configs(), c, m)
  }

  /** What a bid adds to the state. */
  lemma StartAdds(cfg: Config, c: State, i: nat, at: int, samples: seq<HealthSample>, input: CycleInput) returns (d: State)
    requires i < |c.slots|
    requires var decision := Begin(cfg, Sampling(cfg, c.slots[i].state, samples, at), input).1;
             decision == if i == 0 then Attempt else Wait(i)
    ensures d == Starting(cfg, c, i, at, samples, input)
    ensures |d.slots| == |c.slots| && d.now == at
    ensures d.promotions == c.promotions + if i == 0 then Promoted(i, |c.bids|, at, input.active, input.first.Ok?) else []
    ensures d.slots[i].phase == (if i == 0 then Idle else Waiting(|c.bids|, input))
    ensures d.slots[i].state.streak == Sampling(cfg, c.slots[i].state, samples, at).streak
    ensures forall j :: 0 <= j < |c.slots| && j != i ==> d.slots[j] == c.slots[j]
    ensures |d.bids| == |c.bids| + 1 && d.bids[..|c.bids|] == c.bids
    ensures var b := d.bids[|c.bids|];
            b.node == i && b.rank == i && b.detected == at && b.works == Works(input.active) && (b.over <==> i == 0)
  {
    BeginKeepsStreak(cfg, Sampling(cfg, c.slots[i].state, samples, at), input);
    hide Begin, Refreshing, G.IPs, Sampling;
    d := Starting(cfg, c, i, at, samples, input);
  }

  /** Node `i`, being eligible, starts a cycle while nobody has been promoted. */
  lemma StartMove(c: State, i: nat, at: int, samples: seq<HealthSample>, again: seq<G.Entry>, works: bool) returns (d: State)
    requires i < 3 == |c.slots| && c.slots[i].phase.Idle? && c.now <= at && c.promotions == []
    requires var cfg := Configs()[i]; H.LongEnough(cfg.health, Sampling(cfg, c.slots[i].state, samples, at).streak, at)
    ensures Leads(c, Starts(i, at, samples, Input(again, works)), d)
    ensures |d.slots| == 3 && d.now == at
    ensures d.promotions == if i == 0 && works then [Promotion(0, |c.bids|, at, at + SECOND, true, None)] else []
    ensures d.slots[i].phase == (if i == 0 then Idle else Waiting(|c.bids|, Input(again, works)))
    ensures d.slots[i].state.streak == Sampling(Configs()[i], c.slots[i].state, samples, at).streak
    ensures forall j :: 0 <= j < 3 && j != i ==> d.slots[j] == c.slots[j]
    ensures |d.bids| == |c.bids| + 1 && d.bids[..|c.bids|] == c.bids
    ensures var b := d.bids[|c.bids|]; b.node == i && b.rank == i && b.detected == at && b.works == works && (b.over <==> i == 0)
  {
    hide Begin, Refreshing, Readings, LedIn, G.IPs, NobodyLeads, Sampling, Starting, H.LongEnough;
    ThreeIPs();
    var ip := if i == 0 then "1" else if i == 1 then "2" else "3";
    Bids(ip, c.slots[i].state, samples, at, again, works);
    d := StartAdds(ConfigOf(ip), c, i, at, samples, Input(again, works));
  }

  /** The first cycle of a node, after its one good sample. */
  lemma FirstMove(c: State, i: nat, at: int, again: seq<G.Entry>, works: bool) returns (d: State)
    requires i < 3 == |c.slots| && c.slots[i] == Slot(StartAt(0), Idle)
    requires 40 * SECOND <= at && c.now <= at && c.promotions == [] && (i == 0 ==> !works)
    ensures Leads(c, Starts(i, at, HEALTHY, Input(again, works)), d)
    ensures |d.slots| == 3 && d.now == at && d.promotions == []
    ensures d.slots[i].phase == (if i == 0 then Idle else Waiting(|c.bids|, Input(again, works)))
    ensures d.slots[i].state.streak.since == Some(10 * SECOND)
    ensures forall j :: 0 <= j < 3 && j != i ==> d.slots[j] == c.slots[j]
    ensures |d.bids| == |c.bids| + 1 && d.bids[..|c.bids|] == c.bids
    ensures var b := d.bids[|c.bids|]; b.node == i && b.rank == i && b.detected == at && b.works == works && (b.over <==> i == 0)
  {
    var ip := if i == 0 then "1" else if i == 1 then "2" else "3";
    EligibleByThen(ip, StartAt(0), at);
    hide Leads, Input, NobodyLeads, Sampling;
    d := StartMove(c, i, at, HEALTHY, again, works);
  }

  /** The second node wakes, still sees nobody, and takes over. */
  lemma SecondWakes(c: State) returns (d: State)
    requires |c.slots| == 3 && c.slots[1].phase == Waiting(1, Input(NobodyLeads(), true)) && c.now <= 67 * SECOND
    requires c.promotions == [] && |c.bids| == 3 && c.bids[1].node == 1 && c.bids[1].rank == 1 && c.bids[1].detected == 61 * SECOND
    ensures Leads(c, Wakes(1, 67 * SECOND), d)
    ensures |d.slots| == 3 && d.now == 67 * SECOND && d.slots[0] == c.slots[0] && d.slots[1].phase.Idle? && d.slots[2] == c.slots[2]
    ensures d.promotions == [Promotion(1, 1, 67 * SECOND, 68 * SECOND, true, None)]
    ensures d.bids == c.bids[1 := c.bids[1].(over := true)]
  {
    var woken := c.slots[1].state.(clock := 67 * SECOND);
    NobodyIsSeen("2", woken);
    hide Finish, Refreshing, Readings, NobodyLeads;
    d := Next(Configs(), c, Wakes(1, 67 * SECOND));
  }

  /** The third node wakes, sees the second lead, and stands back. */
  lemma ThirdWakes(c: State) returns (d: State)
    requires |c.slots| == 3 && c.slots[2].phase == Waiting(2, Input(SecondLeads(), true)) && c.now == 67 * SECOND
    requires c.promotions != []
    requires |c.bids| == 3 && c.bids[2].node == 2 && c.bids[2].rank == 2 && c.bids[2].detected == 61 * SECOND
    ensures Leads(c, Wakes(2, 71 * SECOND), d)
    ensures |d.slots| == 3 && d.slots[0] == c.slots[0] && d.slots[1] == c.slots[1] && d.slots[2].phase.Idle?
    ensures d.promotions == c.promotions && d.bids == c.bids[2 := c.bids[2].(over := true)]
  {
    var woken := c.slots[2].state.(clock := 71 * SECOND);
    ConfigIsValid("3");
    SecondIsRead(ConfigOf("3").gossip, woken.view.cache);
    GoesOnUnlessLed(ConfigOf("3"), woken, Input(SecondLeads(), true));
    hide GoesOn, Finish, Readings, SecondLeads;
    d := Next(Configs(), c, Wakes(2, 71 * SECOND));
  }

  /** A chain of moves is a clean run to its last state. */
  lemma {:induction false} ChainIsRun(moves: seq<Move>, states: seq<State>)
    requires |states| == |moves| + 1
    requires forall i :: 0 <= i < |moves| ==> Leads(states[i], moves[i], states[i + 1])
    ensures CleanRun(Configs(), TIMING, states[0], moves) && After(Configs(), states[0], moves) == states[|moves|]
  {
    if moves == [] {
    } else {
      ChainIsRun(moves[..|moves| - 1], states[..|moves|]);
      hide Enabled, Punctual, Next, Fair, NoPhantoms, Configs;
      assert Leads(states[|moves| - 1], moves[|moves| - 1], states[|moves|]);
    }
  }

  /**
   The run meets every hypothesis of SingleWinnerByAssignment, with three attempts of which
   the last two would work, and it ends as that theorem says: the second node won alone.
   */
  lemma RoundsHappen()
    ensures var cfgs, d := Configs(), After(Configs(), Started(), ROUND_MOVES);
            && ValidConfigs(cfgs) && RoomToSee(cfgs, TIMING) && OneAssignment(cfgs, AllSettings(), ASSIGNMENT)
            && Initial(cfgs, Started()) && CleanRun(cfgs, TIMING, Started(), ROUND_MOVES) && Settled(d)
            && OneAttemptEach(cfgs, d.bids) && DetectedInWindow(TIMING, d.bids)
            && |d.bids| == 3 && !d.bids[0].works && d.bids[1].works && d.bids[2].works
            && Wins(cfgs, TIMING, d, 1)
  {
    hide Leads, OneAssignment, CleanRun, After, Input, NobodyLeads, SecondLeads, AllSettings, ValidConfig;
    SettingsAreOneAssignment();
    ConfigIsValid("1");
    ConfigIsValid("2");
    ConfigIsValid("3");
    var a := FirstMove(Started(), 0, 60 * SECOND, NobodyLeads(), false);
    var b := FirstMove(a, 1, 61 * SECOND, NobodyLeads(), true);
    var c := FirstMove(b, 2, 61 * SECOND, SecondLeads(), true);
    var d := SecondWakes(c);
    var e := ThirdWakes(d);
    ChainIsRun(ROUND_MOVES, [Started(), a, b, c, d, e]);
  }

  // ---------------------------------------------------------------- why one attempt each

  const RETRY_MOVES := [
    Starts(0, 60 * SECOND, HEALTHY, Input(NobodyLeads(), false)),
    Starts(1, 60 * SECOND, HEALTHY, Input(NobodyLeads(), true)),
    Starts(0, 65 * SECOND, [], Input(NobodyLeads(), true)),
    Wakes(1, 65 * SECOND)]

  /** The second node wakes at the moment at which the first one is promoted, and cannot see it yet. */
  lemma SecondWakesTooEarly(c: State) returns (d: State)
    requires |c.slots| == 3 && c.slots[1].phase == Waiting(1, Input(NobodyLeads(), true)) && c.now == 65 * SECOND
    requires |c.promotions| == 1 && c.promotions[0].done == 66 * SECOND
    requires |c.bids| == 3 && c.bids[1].node == 1 && c.bids[1].rank == 1 && c.bids[1].detected == 60 * SECOND
    ensures Leads(c, Wakes(1, 65 * SECOND), d)
    ensures d.promotions == c.promotions + [Promotion(1, 1, 65 * SECOND, 66 * SECOND, true, None)]
  {
    var woken := c.slots[1].state.(clock := 65 * SECOND);
    NobodyIsSeen("2", woken);
    hide Finish, Refreshing, Readings, NobodyLeads;
    d := Next(Configs(), c, Wakes(1, 65 * SECOND));
  }

  /**
   Why a round asks for one attempt each: the first node fails, tries again one poll interval
   later, and the second in rank wakes at that very moment.  Two nodes are promoted at once.
   */
  lemma RetryMakesTwoWinners()
    ensures var d := After(Configs(), Started(), RETRY_MOVES);
            && CleanRun(Configs(), TIMING, Started(), RETRY_MOVES)
            && |d.promotions| == 2 && d.promotions[0].node == 0 && d.promotions[1].node == 1
            && d.promotions[0].at == d.promotions[1].at == 65 * SECOND
  {
    hide Leads, CleanRun, After, Input, NobodyLeads;
    var a := FirstMove(Started(), 0, 60 * SECOND, NobodyLeads(), false);
    var b := FirstMove(a, 1, 60 * SECOND, NobodyLeads(), true);
    assert Tracked(ConfigOf("1").health, b.slots[0].state.streak, [], 0) == b.slots[0].state.streak;
    var c := StartMove(b, 0, 65 * SECOND, [], NobodyLeads(), true);
    var d := SecondWakesTooEarly(c);
    ChainIsRun(RETRY_MOVES, [Started(), a, b, c, d]);
  }
}
