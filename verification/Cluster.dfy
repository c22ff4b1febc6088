/**
 The cluster: N nodes that run their decision cycles against one network.  A cycle happens
 in one step when it needs no delay, and in two when it does: the node waits in between
 while others may act.  The network's part is an assumption on the answers: a node that
 was promoted is visible as a voting leader after a bounded time, and nobody is visible
 who was not promoted.
 */
module Cluster {
  import opened Answers
  import opened Node
  import opened NodeProperties
  import opened RefreshMeaning
  import G = Gossip

  /**
   A promotion whose command succeeded: who, when the command was started, when it was done,
   whether the look that decided it was successful, and since when the node is no longer to
   be seen as a leader, if it is not.
   */
  datatype Promotion = Promotion(node: nat, bid: nat, at: int, done: int, sighted: bool, fallen: Option<int>)

  /**
   An attempt that passed the gates: its rank, the time of detection, the IPs the node saw
   at that moment, whether its command is going to work, and whether the attempt is over.
   */
  datatype Bid = Bid(node: nat, rank: nat, detected: int, seen: set<string>, works: bool, over: bool)

  datatype Phase = Idle | Waiting(bid: nat, input: CycleInput)

  datatype Slot = Slot(state: NodeState, phase: Phase)

  datatype State = State(slots: seq<Slot>, now: int, promotions: seq<Promotion>, bids: seq<Bid>)

  /**
   A node begins a cycle, the health samples since its last cycle taken; or it wakes from its
   takeover delay; or it falls: it crashes, steps down or is cut off, so that nobody need see
   it lead any more.
   */
  datatype Move =
    | Starts(node: nat, at: int, samples: seq<HealthSample>, input: CycleInput)
    | Wakes(node: nat, at: int)
    | Falls(node: nat, at: int)

  predicate Works(run: RoleRun)
  {
    run.preHooksOk && run.commandOk
  }

  ghost predicate ValidConfigs(cfgs: seq<Config>)
  {
    forall i :: 0 <= i < |cfgs| ==> ValidConfig(cfgs[i])
  }

  /** The earliest moment at which the attempt `b` of a node may look again and act: sleeps may overshoot. */
  ghost function ActsAt(cfgs: seq<Config>, b: Bid): int
    requires b.node < |cfgs|
  {
    b.detected + b.rank * cfgs[b.node].pollInterval
  }

  ghost predicate Enabled(cfgs: seq<Config>, c: State, m: Move)
  {
    && m.node < |c.slots| == |cfgs| && c.now <= m.at
    && match m
       case Starts(i, at, samples, input) => c.slots[i].phase.Idle?
       case Wakes(i, at) =>
         && c.slots[i].phase.Waiting? && c.slots[i].phase.bid < |c.bids|
         && c.bids[c.slots[i].phase.bid].node == i
         && at >= ActsAt(cfgs, c.bids[c.slots[i].phase.bid])
       case Falls(_, _) => true
  }

  /** The promotions a command adds: one if it works, none otherwise. */
  function Promoted(i: nat, bid: nat, at: int, run: RoleRun, sighted: bool): seq<Promotion>
  {
    if Works(run) then [Promotion(i, bid, at, at + run.took, sighted, None)] else []
  }

  ghost function Starting(cfg: Config, c: State, i: nat, at: int, samples: seq<HealthSample>, input: CycleInput): State
    requires i < |c.slots|
  {
    var ready := Sampling(cfg, c.slots[i].state, samples, at);
    var (begun, decision) := Begin(cfg, ready, input);
    var bid := |c.bids|;
    var seen := G.IPs(Refreshing(cfg, ready, input.first).view.peers);
    match decision
    case Attempt =>
      c.(slots := c.slots[i := Slot(begun, Idle)], now := at,
         promotions := c.promotions + Promoted(i, bid, at, input.active, input.first.Ok?),
         bids := c.bids + [Bid(i, 0, at, seen, Works(input.active), true)])
    case Wait(rank) =>
      c.(slots := c.slots[i := Slot(begun, Waiting(bid, input))], now := at,
         bids := c.bids + [Bid(i, rank, at, seen, Works(input.active), false)])
    case _ =>
      c.(slots := c.slots[i := Slot(begun, Idle)], now := at)
  }

  /** Whether a node that wakes goes on to promote itself. */
  ghost predicate GoesOn(cfg: Config, s: NodeState, input: CycleInput)
  {
    var view := Refreshing(cfg, s, input.second).view;
    !G.HasUndeclared(view) && view.count != 0
  }

  ghost function Waking(cfg: Config, c: State, i: nat, at: int): State
    requires i < |c.slots| && c.slots[i].phase.Waiting? && c.slots[i].phase.bid < |c.bids|
  {
    var input, bid := c.slots[i].phase.input, c.slots[i].phase.bid;
    var woken := c.slots[i].state.(clock := at);
    c.(slots := c.slots[i := Slot(Finish(cfg, woken, input), Idle)], now := at,
       promotions := c.promotions + if GoesOn(cfg, woken, input) then Promoted(i, bid, at, input.active, input.second.Ok?) else [],
       bids := c.bids[bid := c.bids[bid].(over := true)])
  }

  /** The promotions once node `i` has fallen. */
  function Dropped(promotions: seq<Promotion>, i: nat, at: int): seq<Promotion>
  {
    seq(|promotions|, k requires 0 <= k < |promotions| =>
      var p := promotions[k];
      if p.node == i && p.fallen.None? then p.(fallen := Some(at)) else p)
  }

  ghost function Next(cfgs: seq<Config>, c: State, m: Move): State
    requires Enabled(cfgs, c, m)
  {
    match m
    case Starts(i, at, samples, input) => Starting(cfgs[i], c, i, at, samples, input)
    case Wakes(i, at) => Waking(cfgs[i], c, i, at)
    case Falls(i, at) => c.(now := at, promotions := Dropped(c.promotions, i, at))
  }

  // ---------------------------------------------------------------- the network

  /** The answer by which the node that moves decides, and the vote keys it has cached by then. */
  ghost function Looks(c: State, m: Move): (Answer<seq<G.Entry>>, map<string, string>)
    requires m.node < |c.slots| && !m.Falls? && (m.Wakes? ==> c.slots[m.node].phase.Waiting?)
  {
    var slot := c.slots[m.node];
    (if m.Starts? then m.input.first else slot.phase.input.second, slot.state.view.cache)
  }

  /** The answer shows a voting leader, declared or not. */
  ghost predicate ShowsLeader(cfg: Config, look: (Answer<seq<G.Entry>>, map<string, string>))
  {
    look.0.Ok? && LedIn(Readings(cfg.gossip, look.1, look.0.value))
  }

  /** A promotion has become visible by now, and its node has not fallen. */
  ghost predicate SomebodyStands(c: State, latency: int, now: int)
  {
    exists p :: p in c.promotions && p.fallen.None? && p.done + latency <= now
  }

  /**
   What is asked of the answers.  From `latency` after a promotion was done until the node
   falls, a successful answer shows a leader; role commands take at most `longest`; and if
   the fast path is on, deciding answers are steady.
   */
  ghost predicate Fair(cfgs: seq<Config>, latency: int, longest: int, c: State, m: Move)
    requires Enabled(cfgs, c, m)
  {
    && (!m.Falls? && SomebodyStands(c, latency, m.at) && Looks(c, m).0.Ok? ==> ShowsLeader(cfgs[m.node], Looks(c, m)))
    && (m.Starts? ==> m.input.active.took <= longest && Trusted(cfgs[m.node], m.input))
  }

  /** And nobody is seen to lead who was not promoted. */
  ghost predicate NoPhantoms(cfgs: seq<Config>, c: State, m: Move)
    requires Enabled(cfgs, c, m)
  {
    !m.Falls? && c.promotions == [] ==> !ShowsLeader(cfgs[m.node], Looks(c, m))
  }

  ghost function After(cfgs: seq<Config>, c: State, moves: seq<Move>): State
    decreases |moves|
  {
    if moves == [] then c
    else
      var before := After(cfgs, c, moves[..|moves| - 1]);
      if Enabled(cfgs, before, moves[|moves| - 1]) then Next(cfgs, before, moves[|moves| - 1]) else before
  }

  /** A run: every move is enabled where it happens and the network treats it fairly. */
  ghost predicate FairRun(cfgs: seq<Config>, latency: int, longest: int, c: State, moves: seq<Move>)
    decreases |moves|
  {
    moves == [] ||
    (var before, m := moves[..|moves| - 1], moves[|moves| - 1];
     && FairRun(cfgs, latency, longest, c, before)
     && Enabled(cfgs, After(cfgs, c, before), m)
     && Fair(cfgs, latency, longest, After(cfgs, c, before), m))
  }

  ghost predicate Initial(cfgs: seq<Config>, c: State)
  {
    && |c.slots| == |cfgs| && c.promotions == [] && c.bids == []
    && forall i :: 0 <= i < |c.slots| ==> c.slots[i].phase.Idle?
  }
}
