/**
 One node of the cluster: the decision cycle that refreshes, decides, waits, revalidates
 and runs a role command, and the two loops that drive it.  Remote answers, hook and
 command outcomes and the passing of time are inputs; every refresh and every role
 command leaves an event in a trace.
 */
module Node {
  import opened Answers
  import opened Durations
  import opened Ordering
  import G = Gossip
  import H = Health
  import F = FailoverConfig

  datatype Config = Config(
    gossip: G.Config,
    health: H.Config,
    selfIP: string,
    threshold: int,
    pollInterval: int,
    confirmationPoll: int,
    bypass: bool,
    priorityRanks: Option<map<string, nat>>)

  /** What validation and initialisation establish. */
  ghost predicate ValidConfig(cfg: Config)
  {
    && G.UniqueIPs(cfg.gossip.peers)
    && G.Declared(cfg.gossip, cfg.selfIP)
    && cfg.threshold > 0 && cfg.pollInterval > 0 && cfg.confirmationPoll > 0
    && (cfg.priorityRanks.Some? ==> cfg.selfIP in cfg.priorityRanks.value)
  }

  /** How a role command went: `took` is its duration, `identity` what the local RPC reports afterwards. */
  datatype RoleRun = RoleRun(preHooksOk: bool, commandOk: bool, took: nat, identity: Answer<string>)

  datatype Outcome = HooksFailed | CommandFailed | Unconfirmed | Confirmed

  /** All the answers one decision cycle may ask for. */
  datatype CycleInput = CycleInput(
    first: Answer<seq<G.Entry>>,
    health: Answer<string>,
    identity: Answer<string>,
    second: Answer<seq<G.Entry>>,
    active: RoleRun,
    passive: RoleRun,
    afterPassive: Answer<seq<G.Entry>>)

  datatype Event =
    | Sample(at: int, leaderless: bool)
    | SampleLost(at: int)
    | BecomeActive(at: int, outcome: Outcome)
    | BecomePassive(at: int, outcome: Outcome)

  datatype NodeState = NodeState(view: G.View, streak: H.Streak, clock: int, trace: seq<Event>)

  datatype Decision = Stay | StepDown | Attempt | Wait(rank: nat)

  /** A node that has just been initialised. */
  function StartAt(now: int): NodeState
  {
    NodeState(G.INITIAL_VIEW, H.NO_STREAK, now, [])
  }

  // ---------------------------------------------------------------- the decision cycle as functions

  ghost function Refreshing(cfg: Config, s: NodeState, answer: Answer<seq<G.Entry>>): NodeState
  {
    var view := G.Refreshed(cfg.gossip, s.view, answer);
    s.(view := view, trace := s.trace + [if answer.Ok? then Sample(s.clock, view.count > 0) else SampleLost(s.clock)])
  }

  /** Our rank for the takeover delay: by configured priority, or else by IP among the recorded peers. */
  ghost function TakeoverRank(cfg: Config, view: G.View): Option<nat>
  {
    if view.peers == map[] then None
    else
      var ranks := if cfg.priorityRanks.Some? then cfg.priorityRanks.value else G.IPRanks(view);
      if cfg.selfIP in ranks then Some(ranks[cfg.selfIP]) else None
  }

  /** The gates a cycle passes once its first refresh is in. */
  datatype Gate = Halt | Demote | Proceed

  ghost function GateOf(cfg: Config, s: NodeState, health: Answer<string>, identity: Answer<string>): Gate
  {
    if G.HasUndeclared(s.view) then Halt
    else if s.view.count < cfg.threshold && !(cfg.bypass && s.view.delinquent) then Halt
    else if !G.HasIP(s.view, cfg.selfIP) then
      if s.view.rpcError || G.HasPeers(s.view, cfg.selfIP) then Demote else Halt
    else if !H.IsHealthy(health) || !H.LongEnough(cfg.health, s.streak, s.clock) then Halt
    else if H.IsActive(cfg.gossip.activePubkey, identity) then Halt
    else Proceed
  }

  /** What the cycle does once the first refresh is in. */
  ghost function Decide(cfg: Config, s: NodeState, health: Answer<string>, identity: Answer<string>): Decision
  {
    match GateOf(cfg, s, health, identity)
    case Halt => Stay
    case Demote => StepDown
    case Proceed =>
      match TakeoverRank(cfg, s.view)
      case None => Stay
      case Some(rank) => if rank == 0 then Attempt else Wait(rank)
  }

  function OutcomeOf(run: RoleRun, asExpected: bool): Outcome
  {
    if !run.preHooksOk then HooksFailed
    else if !run.commandOk then CommandFailed
    else if asExpected then Confirmed else Unconfirmed
  }

  ghost function Promoting(cfg: Config, s: NodeState, run: RoleRun): NodeState
  {
    var outcome := OutcomeOf(run, H.IsActive(cfg.gossip.activePubkey, run.identity));
    s.(clock := s.clock + run.took, trace := s.trace + [BecomeActive(s.clock, outcome)])
  }

  ghost function Demoting(cfg: Config, s: NodeState, run: RoleRun, after: Answer<seq<G.Entry>>): NodeState
  {
    var outcome := OutcomeOf(run, H.IsPassive(cfg.gossip.activePubkey, run.identity));
    var demoted := s.(clock := s.clock + run.took, trace := s.trace + [BecomePassive(s.clock, outcome)]);
    if outcome == Confirmed then Refreshing(cfg, demoted, after) else demoted
  }

  /** The cycle up to the takeover delay. */
  ghost function Begin(cfg: Config, s: NodeState, input: CycleInput): (NodeState, Decision)
  {
    var seen := Refreshing(cfg, s, input.first);
    var decision := Decide(cfg, seen, input.health, input.identity);
    match decision
    case StepDown => (Demoting(cfg, seen, input.passive, input.afterPassive), decision)
    case Attempt => (Promoting(cfg, seen, input.active), decision)
    case _ => (seen, decision)
  }

  /** The cycle after a takeover delay: look again, and promote unless somebody leads by now. */
  ghost function Finish(cfg: Config, s: NodeState, input: CycleInput): NodeState
  {
    var seen := Refreshing(cfg, s, input.second);
    if G.HasUndeclared(seen.view) || seen.view.count == 0 then seen else Promoting(cfg, seen, input.active)
  }

  /** One whole cycle. */
  ghost function Cycle(cfg: Config, s: NodeState, input: CycleInput): NodeState
  {
    var (begun, decision) := Begin(cfg, s, input);
    if decision.Wait? then Finish(cfg, begun.(clock := begun.clock + decision.rank * cfg.pollInterval), input)
    else begun
  }

  /** The delay, the revalidation and the promotion of a node that passed the gates. */
  ghost function TakingOver(cfg: Config, s: NodeState, input: CycleInput): NodeState
  {
    match TakeoverRank(cfg, s.view)
    case None => s
    case Some(rank) =>
      if rank == 0 then Promoting(cfg, s, input.active)
      else Finish(cfg, s.(clock := s.clock + rank * cfg.pollInterval), input)
  }

  /** The cycle read gate by gate. */
  lemma CycleByGate(cfg: Config, s: NodeState, input: CycleInput)
    ensures var seen := Refreshing(cfg, s, input.first);
            var gate := GateOf(cfg, seen, input.health, input.identity);
            && (gate.Halt? ==> Cycle(cfg, s, input) == seen)
            && (gate.Demote? ==> Cycle(cfg, s, input) == Demoting(cfg, seen, input.passive, input.afterPassive))
            && (gate.Proceed? ==> Cycle(cfg, s, input) == TakingOver(cfg, seen, input) && !G.HasUndeclared(seen.view))
  {
    hide Refreshing, Promoting, Demoting, Finish, TakeoverRank;
  }

  // ---------------------------------------------------------------- the polling loops as functions

  /** One health sample of the tracker that runs beside the monitor loop. */
  datatype HealthSample = HealthSample(at: int, health: Answer<string>)

  /** What happens before and in one turn of a loop: health samples, then a cycle. */
  datatype Turn = Turn(samples: seq<HealthSample>, cycle: CycleInput)

  function Tracked(cfg: H.Config, streak: H.Streak, samples: seq<HealthSample>, n: nat): H.Streak
    requires n <= |samples|
  {
    if n == 0 then streak
    else H.Sampled(cfg, Tracked(cfg, streak, samples, n - 1), samples[n - 1].at, H.IsHealthy(samples[n - 1].health))
  }

  /** The next instant after `now` that is a multiple of the poll interval. */
  function NextAligned(now: int, interval: int): (next: int)
    requires interval > 0
  {
    (now / interval + 1) * interval
  }

  /** The smallest multiple of the interval that is not before `now`. */
  function AlignedFrom(now: int, interval: int): (next: int)
    requires interval > 0
  {
    if now % interval == 0 then now else NextAligned(now, interval)
  }

  /**
   The ticker fires for the first time one full interval after the start, and the loop then
   waits for a multiple of the interval: the node as of one interval before that.
   */
  function Ticking(cfg: Config, s: NodeState): NodeState
    requires cfg.pollInterval > 0
  {
    s.(clock := AlignedFrom(s.clock + cfg.pollInterval, cfg.pollInterval) - cfg.pollInterval)
  }

  /** The node at `now`, with the health samples that were taken since its last cycle. */
  function Sampling(cfg: Config, s: NodeState, samples: seq<HealthSample>, now: int): NodeState
  {
    s.(streak := Tracked(cfg.health, s.streak, samples, |samples|), clock := now)
  }

  lemma AlignedIsMultiple(now: int, interval: int)
    requires interval > 0
    ensures NextAligned(now, interval) % interval == 0
  {
    MultipleOf(now / interval + 1, interval);
    assert interval * (now / interval + 1) == NextAligned(now, interval);
  }

  ghost function TurnAt(cfg: Config, s: NodeState, now: int, turn: Turn): NodeState
  {
    Cycle(cfg, Sampling(cfg, s, turn.samples, now), turn.cycle)
  }

  /** What turn `i` does to a node when it comes at a given time. */
  type Step = (NodeState, int, nat) -> NodeState

  ghost function StepOf(cfg: Config, turns: seq<Turn>): Step
  {
    (s: NodeState, now: int, i: nat) => if i < |turns| then TurnAt(cfg, s, now, turns[i]) else s
  }

  /**
   The confirmation loop from turn `i` of `n` on, for as long as the count stays at `below`:
   the state it leaves behind, and the next turn.  The loops are told for any step, since
   they do not look into it.
   */
  ghost function ConfirmFrom(step: Step, below: int, s: NodeState, interval: int, n: nat, i: nat): (result: (NodeState, nat))
    requires i <= n
    ensures i <= result.1 <= n
    ensures result.1 == n || result.0.view.count != below
    decreases n - i
  {
    if i == n then (s, i)
    else
      var after := step(s, s.clock + interval, i);
      if after.view.count != below then (after, i + 1) else ConfirmFrom(step, below, after, interval, n, i + 1)
  }

  /** The monitor loop from turn `i` of `n` on, until the turns run out. */
  ghost function MonitorFrom(step: Step, cfg: Config, s: NodeState, n: nat, i: nat): NodeState
    requires i <= n && cfg.pollInterval > 0
    decreases n - i
  {
    if i == n then s
    else
      var after := step(s, NextAligned(s.clock, cfg.pollInterval), i);
      if cfg.confirmationPoll < cfg.pollInterval && after.view.count == cfg.threshold - 1 then
        var (confirmed, next) := ConfirmFrom(step, cfg.threshold - 1, after, cfg.confirmationPoll, n, i + 1);
        MonitorFrom(step, cfg, confirmed, n, next)
      else
        MonitorFrom(step, cfg, after, n, i + 1)
  }

  /** The whole monitor: an initial look, the wait for the ticker, then the polling loop. */
  ghost function Monitoring(cfg: Config, s: NodeState, initial: Answer<seq<G.Entry>>, turns: seq<Turn>): NodeState
    requires cfg.pollInterval > 0
  {
    MonitorFrom(StepOf(cfg, turns), cfg, Ticking(cfg, Refreshing(cfg, s, initial)), |turns|, 0)
  }

  // ---------------------------------------------------------------- the manager

  class Manager {
    const cfg: Config
    const gossip: G.State
    const local: H.State
    var clock: int
    ghost var trace: seq<Event>

    ghost predicate Valid()
      reads this, gossip, local
    {
      && ValidConfig(cfg)
      && gossip.cfg == cfg.gossip && gossip.Valid()
      && local.cfg == cfg.health && local.activePubkey == cfg.gossip.activePubkey
    }

    ghost function Now(): NodeState
      reads this, gossip, local
    {
      NodeState(gossip.Now(), local.Now(), clock, trace)
    }

    constructor (cfg: Config, now: int)
      requires ValidConfig(cfg)
      ensures this.cfg == cfg && Valid() && fresh(gossip) && fresh(local) && Now() == StartAt(now)
    {
      this.cfg := cfg;
      gossip := new G.State(cfg.gossip);
      local := new H.State(cfg.health, cfg.gossip.activePubkey);
      clock, trace := now, [];
    }

    method Refresh(answer: Answer<seq<G.Entry>>)
      requires Valid()
      modifies this`trace, gossip
      ensures Valid() && Now() == Refreshing(cfg, old(Now()), answer)
    {
      gossip.Refresh(answer);
      trace := trace + [if answer.Ok? then Sample(clock, gossip.leaderlessSamplesCount > 0) else SampleLost(clock)];
    }

    method EnsureActive(run: RoleRun)
      requires Valid()
      modifies this
      ensures Valid() && Now() == Promoting(cfg, old(Now()), run)
    {
      var outcome := Unconfirmed;
      if !run.preHooksOk {
        outcome := HooksFailed;
      } else if !run.commandOk {
        outcome := CommandFailed;
      } else if H.IsActive(local.activePubkey, run.identity) {
        outcome := Confirmed;
      }
      trace := trace + [BecomeActive(clock, outcome)];
      clock := clock + run.took;
    }

    method EnsurePassive(run: RoleRun, after: Answer<seq<G.Entry>>)
      requires Valid()
      modifies this, gossip
      ensures Valid() && Now() == Demoting(cfg, old(Now()), run, after)
    {
      ghost var started := clock;
      clock := clock + run.took;
      if !run.preHooksOk {
        trace := trace + [BecomePassive(started, HooksFailed)];
        return;
      }
      if !run.commandOk {
        trace := trace + [BecomePassive(started, CommandFailed)];
        return;
      }
      if !H.IsPassive(local.activePubkey, run.identity) {
        trace := trace + [BecomePassive(started, Unconfirmed)];
        return;
      }
      trace := trace + [BecomePassive(started, Confirmed)];
      Refresh(after);
    }

    /** Sleeps as long as our rank demands; an error when we cannot be ranked. */
    method DelayTakeoverAsActive() returns (delayApplied: bool, error: bool)
      requires Valid()
      modifies this`clock
      ensures Valid()
      ensures var rank := TakeoverRank(cfg, old(Now()).view);
              && (error <==> rank.None?)
              && (delayApplied <==> rank.Some? && rank.value > 0)
              && clock == old(clock) + if delayApplied then rank.value * cfg.pollInterval else 0
    {
      if |gossip.peerStatesByName| == 0 {
        return false, true;
      }
      var rankedPeerIPs: map<string, nat>;
      if cfg.priorityRanks.Some? {
        rankedPeerIPs := cfg.priorityRanks.value;
      } else {
        rankedPeerIPs := gossip.PeerIPRankMap();
      }
      if cfg.selfIP !in rankedPeerIPs {
        return false, true;
      }
      var selfPeerRank := rankedPeerIPs[cfg.selfIP];
      if selfPeerRank == 0 {
        return false, false;
      }
      var delay := selfPeerRank * cfg.pollInterval;
      clock := clock + delay;
      return true, false;
    }

    /** The checks of a cycle between its first refresh and the takeover delay. */
    method PassGates(input: CycleInput) returns (gate: Gate)
      requires Valid()
      ensures gate == GateOf(cfg, Now(), input.health, input.identity)
    {
      if gossip.configUndeclaredActivePeer.ip != "" {
        return Halt;
      }
      if !(gossip.leaderlessSamplesCount >= cfg.threshold) {
        if cfg.bypass && gossip.activePeerDelinquent {
        } else {
          return Halt;
        }
      }
      var selfInGossip := gossip.SeesIP(cfg.selfIP);
      if !selfInGossip {
        if gossip.lastRefreshHadRPCError {
          return Demote;
        }
        var others := gossip.SeesPeersOtherThan(cfg.selfIP);
        if !others {
          return Halt;
        }
        return Demote;
      }
      if !H.IsHealthy(input.health) {
        return Halt;
      }
      var longEnough := local.IsSelfHealthyLongEnough(clock);
      if !longEnough {
        return Halt;
      }
      if H.IsActive(local.activePubkey, input.identity) {
        return Halt;
      }
      return Proceed;
    }

    /** The checks after the takeover delay, if there was one, and the promotion. */
    method PromoteUnlessLed(delayApplied: bool, run: RoleRun)
      requires Valid()
      modifies this
      ensures Valid()
      ensures var s := old(Now());
              Now() == if G.HasUndeclared(s.view) || (delayApplied && s.view.count == 0) then s else Promoting(cfg, s, run)
    {
      if gossip.configUndeclaredActivePeer.ip != "" {
        return;
      }
      if delayApplied && gossip.leaderlessSamplesCount == 0 {
        var active := gossip.GetActivePeer();
        if active.None? {
          return;
        }
        return;
      }
      EnsureActive(run);
    }

    /** The delay, the revalidation and the promotion. */
    method TakeOver(input: CycleInput)
      requires Valid() && !G.HasUndeclared(Now().view)
      modifies this, gossip
      ensures Valid() && Now() == TakingOver(cfg, old(Now()), input)
    {
      hide Refreshing, Promoting, TakeoverRank;
      var delayApplied, error := DelayTakeoverAsActive();
      if error {
        return;
      }
      if delayApplied {
        Refresh(input.second);
      }
      PromoteUnlessLed(delayApplied, input.active);
    }

    /** One decision cycle. */
    method EnsureHAState(input: CycleInput)
      requires Valid()
      modifies this, gossip
      ensures Valid() && Now() == Cycle(cfg, old(Now()), input)
    {
      CycleByGate(cfg, Now(), input);
      Refresh(input.first);
      var gate := PassGates(input);
      match gate {
        case Halt =>
        case Demote => EnsurePassive(input.passive, input.afterPassive);
        case Proceed => TakeOver(input);
      }
    }

    /** The health tracker's samples that fall before the next cycle. */
    method TrackHealth(samples: seq<HealthSample>)
      requires Valid()
      modifies local
      ensures Valid()
      ensures Now() == old(Now()).(streak := Tracked(cfg.health, old(local.Now()), samples, |samples|))
    {
      for n := 0 to |samples|
        invariant Valid()
        invariant Now() == old(Now()).(streak := Tracked(cfg.health, old(local.Now()), samples, n))
      {
        local.SampleSelf(samples[n].at, samples[n].health);
      }
    }

    method RunTurn(now: int, turns: seq<Turn>, i: nat)
      requires Valid() && i < |turns|
      modifies this, gossip, local
      ensures Valid() && Now() == StepOf(cfg, turns)(old(Now()), now, i)
    {
      clock := now;
      TrackHealth(turns[i].samples);
      EnsureHAState(turns[i].cycle);
    }

    /** Polls at the short interval until the count leaves the value one below the threshold. */
    method RunConfirmationPollLoop(interval: int, turns: seq<Turn>, from: nat) returns (next: nat)
      requires Valid() && from <= |turns|
      modifies this, gossip, local
      ensures Valid()
      ensures (Now(), next) == ConfirmFrom(StepOf(cfg, turns), cfg.threshold - 1, old(Now()), interval, |turns|, from)
    {
      hide StepOf;
      ghost var step := StepOf(cfg, turns);
      next := from;
      while next < |turns|
        invariant Valid() && next <= |turns|
        invariant ConfirmFrom(step, cfg.threshold - 1, Now(), interval, |turns|, next)
               == ConfirmFrom(step, cfg.threshold - 1, old(Now()), interval, |turns|, from)
        decreases |turns| - next
      {
        RunTurn(clock + interval, turns, next);
        next := next + 1;
        if gossip.leaderlessSamplesCount != cfg.threshold - 1 {
          return;
        }
      }
    }

    /** Polls at aligned instants and hands over to the confirmation loop one sample below the threshold. */
    method PollAligned(turns: seq<Turn>)
      requires Valid()
      modifies this, gossip, local
      ensures Valid() && Now() == MonitorFrom(StepOf(cfg, turns), cfg, old(Now()), |turns|, 0)
    {
      ghost var step := StepOf(cfg, turns);
      var fastPolling := cfg.confirmationPoll < cfg.pollInterval;
      var next := 0;
      while next < |turns|
        invariant Valid() && next <= |turns|
        invariant MonitorFrom(step, cfg, Now(), |turns|, next) == MonitorFrom(step, cfg, old(Now()), |turns|, 0)
        decreases |turns| - next
      {
        RunTurn(NextAligned(clock, cfg.pollInterval), turns, next);
        next := next + 1;
        if fastPolling && gossip.leaderlessSamplesCount == cfg.threshold - 1 {
          next := RunConfirmationPollLoop(cfg.confirmationPoll, turns, next);
        }
      }
    }

    method AwaitFirstTick()
      requires Valid()
      modifies this`clock
      ensures Valid() && Now() == Ticking(cfg, old(Now()))
    {
      hide AlignedFrom;
      clock := AlignedFrom(clock + cfg.pollInterval, cfg.pollInterval) - cfg.pollInterval;
    }

    method HaMonitorLoop(initial: Answer<seq<G.Entry>>, turns: seq<Turn>)
      requires Valid()
      modifies this, gossip, local
      ensures Valid() && Now() == Monitoring(cfg, old(Now()), initial, turns)
    {
      hide Ticking, MonitorFrom, Refreshing, StepOf;
      Refresh(initial);
      AwaitFirstTick();
      PollAligned(turns);
    }
  }

  /** The node ranks by priority if it has one, and then as these settings say. */
  ghost predicate RanksFrom(cfg: Config, own: Option<int>, peers: map<string, F.Peer>)
  {
    && (cfg.priorityRanks.Some? <==> own.Some?)
    && (own.Some? ==> F.RankedBy(cfg.priorityRanks.value, F.Entries(cfg.selfIP, own.value, peers)))
  }

  /**
   Initialisation from validated settings: refuse a configuration that lists our own IP
   as a peer, else add us to the peers and start from the empty state.
   */
  method Initialize(f: F.Failover, ghost isIPv4: string -> bool, name: string, publicIP: string,
                    activePubkey: string, bypass: bool, now: int)
    returns (m: Manager?)
    requires F.ValidUniqueIPs(isIPv4, f.peers) && F.AllOrNothing(f.priority, f.peers)
    requires f.leaderlessSamplesThreshold > 0 && f.pollInterval > 0 && f.confirmationPoll > 0
    modifies f`peers
    ensures m == null <==> exists n :: n in old(f.peers) && old(f.peers)[n].ip == publicIP
    ensures m == null ==> f.peers == old(f.peers)
    ensures m != null ==>
              && fresh(m) && m.Valid() && m.Now() == StartAt(now)
              && m.cfg.selfIP == publicIP && m.cfg.threshold == f.leaderlessSamplesThreshold
              && m.cfg.pollInterval == f.pollInterval && m.cfg.confirmationPoll == f.confirmationPoll
              && m.cfg.bypass == bypass && m.cfg.gossip.activePubkey == activePubkey
              && m.cfg.health == H.Config(f.minimumDuration, f.unhealthyGraceCount)
              && m.cfg.gossip.peers == (map n | n in f.peers :: f.peers[n].ip)
              && f.peers == old(f.peers)[name := F.Peer(publicIP, None)]
              && RanksFrom(m.cfg, f.priority, f.peers)
  {
    hide F.LastPositions, Sorted, Elements, F.Entries, F.RankedBy, F.IPsDiffer, F.Rankable, F.AllOrNothing;
    ghost var peers := f.peers;
    var ok := f.AddSelf(name, publicIP);
    if !ok {
      return null;
    }
    if f.priority.Some? {
      F.ValidatedPrioritiesAreRankable(isIPv4, f.priority.value, peers, name, publicIP);
    }
    var ranks := f.PeerIPPriorityRankMap(publicIP);
    if ranks.Some? {
      F.SelfIsRanked(ranks.value, publicIP, f.priority.value, f.peers);
    }
    var cfg := Config(
      G.Config(activePubkey, map n | n in f.peers :: f.peers[n].ip),
      H.Config(f.minimumDuration, f.unhealthyGraceCount),
      publicIP, f.leaderlessSamplesThreshold, f.pollInterval, f.confirmationPoll, bypass, ranks);
    assert cfg.gossip.peers[name] == publicIP;
    m := new Manager(cfg, now);
  }
}
