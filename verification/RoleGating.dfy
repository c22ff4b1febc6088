/** What must hold before one cycle runs a role command, told in terms of the answers it was given. */
module RoleGating {
  import opened Answers
  import opened Node
  import opened NodeProperties
  import opened RefreshMeaning
  import opened VoteCache
  import G = Gossip
  import H = Health

  /** The readings of the first refresh of a cycle; none when it failed. */
  ghost function FirstReadings(cfg: Config, s: NodeState, input: CycleInput): set<Reading>
  {
    match input.first
    case Failed => {}
    case Ok(es) => Readings(cfg.gossip, s.view.cache, es)
  }

  /** The readings of the revalidating refresh, which starts from the cache the first one left. */
  ghost function SecondReadings(cfg: Config, s: NodeState, input: CycleInput): set<Reading>
  {
    match input.second
    case Failed => {}
    case Ok(es) => Readings(cfg.gossip, Refreshing(cfg, s, input.first).view.cache, es)
  }

  /** The events a cycle adds to the trace. */
  ghost function NewEvents(cfg: Config, s: NodeState, input: CycleInput): seq<Event>
  {
    var trace := Cycle(cfg, s, input).trace;
    if s.trace <= trace then trace[|s.trace|..] else []
  }

  lemma DemotingShape(cfg: Config, s: NodeState, run: RoleRun, after: Answer<seq<G.Entry>>)
    ensures var t := Demoting(cfg, s, run, after).trace;
            && s.trace <= t && |s.trace| < |t| <= |s.trace| + 2
            && t[|s.trace|].BecomePassive?
            && (|t| == |s.trace| + 2 ==> !IsCommand(t[|s.trace| + 1]))
  {
  }

  lemma FinishShape(cfg: Config, s: NodeState, input: CycleInput)
    ensures var t, seen := Finish(cfg, s, input).trace, Refreshing(cfg, s, input.second);
            && s.trace <= t && |s.trace| < |t| <= |s.trace| + 2
            && !IsCommand(t[|s.trace|])
            && (|t| == |s.trace| + 2 <==> !G.HasUndeclared(seen.view) && seen.view.count != 0)
            && (|t| == |s.trace| + 2 ==> t[|s.trace| + 1].BecomeActive? && t[|s.trace| + 1].at == s.clock)
  {
  }

  /** The first refresh adds one event, which is no role command. */
  lemma FirstEvent(cfg: Config, s: NodeState, input: CycleInput)
    ensures var seen := Refreshing(cfg, s, input.first).trace;
            && s.trace <= seen && |seen| == |s.trace| + 1 && !IsCommand(seen[|s.trace|])
  {
  }

  lemma HaltShape(cfg: Config, s: NodeState, input: CycleInput)
    requires GateOf(cfg, Refreshing(cfg, s, input.first), input.health, input.identity).Halt?
    ensures s.trace <= Cycle(cfg, s, input).trace
    ensures var added := NewEvents(cfg, s, input); |added| == 1 && !IsCommand(added[0])
  {
    CycleByGate(cfg, s, input);
    FirstEvent(cfg, s, input);
  }

  lemma DemoteShape(cfg: Config, s: NodeState, input: CycleInput)
    requires GateOf(cfg, Refreshing(cfg, s, input.first), input.health, input.identity).Demote?
    ensures s.trace <= Cycle(cfg, s, input).trace
    ensures var added := NewEvents(cfg, s, input);
            && 1 < |added| <= 3 && !IsCommand(added[0]) && added[1].BecomePassive?
            && (|added| == 3 ==> !IsCommand(added[2]))
  {
    CycleByGate(cfg, s, input);
    FirstEvent(cfg, s, input);
    DemotingShape(cfg, Refreshing(cfg, s, input.first), input.passive, input.afterPassive);
  }

  /** The events of a cycle whose gates let it proceed, by the rank it finds. */
  lemma ProceedShape(cfg: Config, s: NodeState, input: CycleInput)
    requires GateOf(cfg, Refreshing(cfg, s, input.first), input.health, input.identity).Proceed?
    ensures s.trace <= Cycle(cfg, s, input).trace
    ensures var added, rank := NewEvents(cfg, s, input), TakeoverRank(cfg, Refreshing(cfg, s, input.first).view);
            && 0 < |added| <= 3 && !IsCommand(added[0])
            && (rank.None? ==> |added| == 1)
            && (rank == Some(0) ==> |added| == 2 && added[1].BecomeActive? && added[1].at == s.clock)
            && (rank.Some? && rank.value > 0 ==>
                  var later := Refreshing(cfg, s, input.first).(clock := s.clock + rank.value * cfg.pollInterval);
                  var again := Refreshing(cfg, later, input.second).view;
                  && |added| > 1 && !IsCommand(added[1])
                  && (|added| == 3 <==> !G.HasUndeclared(again) && again.count != 0)
                  && (|added| == 3 ==> added[2].BecomeActive? && added[2].at == later.clock))
  {
    CycleByGate(cfg, s, input);
    FirstEvent(cfg, s, input);
    var seen := Refreshing(cfg, s, input.first);
    var rank := TakeoverRank(cfg, seen.view);
    if rank.Some? && rank.value > 0 {
      FinishShape(cfg, seen.(clock := s.clock + rank.value * cfg.pollInterval), input);
    }
  }

  /** One cycle runs at most one role command: it never both promotes and demotes. */
  lemma OneCommandPerCycle(cfg: Config, s: NodeState, input: CycleInput)
    ensures s.trace <= Cycle(cfg, s, input).trace
    ensures var added := NewEvents(cfg, s, input);
            forall i, j :: 0 <= i < j < |added| ==> !(IsCommand(added[i]) && IsCommand(added[j]))
  {
    hide Cycle, Refreshing, TakeoverRank;
    match GateOf(cfg, Refreshing(cfg, s, input.first), input.health, input.identity)
    case Halt => HaltShape(cfg, s, input);
    case Demote => DemoteShape(cfg, s, input);
    case Proceed => ProceedShape(cfg, s, input);
  }

  // ---------------------------------------------------------------- how commands turn out

  /** The passive command ran, and the node itself then reports another key than the active one. */
  predicate TookHold(cfg: Config, run: RoleRun)
  {
    run.preHooksOk && run.commandOk && run.identity.Ok? && run.identity.value != cfg.gossip.activePubkey
  }

  /** The outcome tells how the command went; `held` says whether the node then reported what was expected. */
  ghost predicate TellsHow(outcome: Outcome, run: RoleRun, held: bool)
  {
    match outcome
    case HooksFailed => !run.preHooksOk
    case CommandFailed => run.preHooksOk && !run.commandOk
    case Confirmed => run.preHooksOk && run.commandOk && held
    case Unconfirmed => run.preHooksOk && run.commandOk && !held
  }

  lemma DemotingTells(cfg: Config, s: NodeState, run: RoleRun, after: Answer<seq<G.Entry>>)
    ensures var d := Demoting(cfg, s, run, after);
            && d.clock == s.clock + run.took
            && s.trace <= d.trace && |d.trace| == |s.trace| + (if TookHold(cfg, run) then 2 else 1)
            && (var e := d.trace[|s.trace|]; e.BecomePassive? && e.at == s.clock && TellsHow(e.outcome, run, TookHold(cfg, run)))
            && (TookHold(cfg, run) ==> !IsCommand(d.trace[|s.trace| + 1]))
  {
  }

  lemma PromotingTells(cfg: Config, s: NodeState, run: RoleRun)
    ensures var d := Promoting(cfg, s, run);
            && d.clock == s.clock + run.took
            && s.trace <= d.trace && |d.trace| == |s.trace| + 1
            && (var e := d.trace[|s.trace|];
                e.BecomeActive? && e.at == s.clock && TellsHow(e.outcome, run, run.identity == Ok(cfg.gossip.activePubkey)))
  {
  }

  lemma FinishTells(cfg: Config, s: NodeState, input: CycleInput)
    ensures var d := Finish(cfg, s, input);
            && s.trace <= d.trace && |s.trace| < |d.trace| <= |s.trace| + 2 && !IsCommand(d.trace[|s.trace|])
            && (|d.trace| == |s.trace| + 1 ==> d.clock == s.clock)
            && (|d.trace| == |s.trace| + 2 ==>
                  && d.clock == s.clock + input.active.took
                  && var e := d.trace[|s.trace| + 1];
                     e.BecomeActive? && TellsHow(e.outcome, input.active, input.active.identity == Ok(cfg.gossip.activePubkey)))
  {
    PromotingTells(cfg, Refreshing(cfg, s, input.second), input.active);
    hide Promoting, G.Refreshed;
  }

  /** How long a cycle takes: the takeover delay, if there was one, and its role command. */
  ghost function Duration(cfg: Config, s: NodeState, input: CycleInput): int
  {
    var added := NewEvents(cfg, s, input);
    (match Begin(cfg, s, input).1 case Wait(rank) => rank * cfg.pollInterval case _ => 0)
    + (if exists e :: e in added && e.BecomeActive? then input.active.took
       else if exists e :: e in added && e.BecomePassive? then input.passive.took else 0)
  }

  /** What a cycle adds, told by the answers to its command. */
  ghost predicate ToldByAnswers(cfg: Config, s: NodeState, input: CycleInput)
  {
    var added := NewEvents(cfg, s, input);
    && (forall e :: e in added && e.BecomeActive? ==>
          TellsHow(e.outcome, input.active, input.active.identity == Ok(cfg.gossip.activePubkey)))
    && (forall e :: e in added && e.BecomePassive? ==>
          && TellsHow(e.outcome, input.passive, TookHold(cfg, input.passive)) && e.at == s.clock
          && (|added| == 3 <==> TookHold(cfg, input.passive)))
    && Cycle(cfg, s, input).clock == s.clock + Duration(cfg, s, input)
  }

  lemma DemoteIsTold(cfg: Config, s: NodeState, input: CycleInput)
    requires GateOf(cfg, Refreshing(cfg, s, input.first), input.health, input.identity).Demote?
    ensures ToldByAnswers(cfg, s, input)
  {
    CycleByGate(cfg, s, input);
    FirstEvent(cfg, s, input);
    var seen := Refreshing(cfg, s, input.first);
    DemotingTells(cfg, seen, input.passive, input.afterPassive);
    hide GateOf, Demoting, Promoting, Finish, TellsHow, TookHold, G.Refreshed;
    var added := NewEvents(cfg, s, input);
    assert added[1] in added && added[1].BecomePassive?;
  }

  lemma AttemptIsTold(cfg: Config, s: NodeState, input: CycleInput)
    requires GateOf(cfg, Refreshing(cfg, s, input.first), input.health, input.identity).Proceed?
    requires TakeoverRank(cfg, Refreshing(cfg, s, input.first).view) == Some(0)
    ensures ToldByAnswers(cfg, s, input)
  {
    hide GateOf, Demoting, Promoting, Finish, TellsHow, TookHold, TakeoverRank, Refreshing;
    CycleByGate(cfg, s, input);
    FirstEvent(cfg, s, input);
    ClockStays(cfg, s, input.first);
    PromotingTells(cfg, Refreshing(cfg, s, input.first), input.active);
    var added := NewEvents(cfg, s, input);
    assert |added| == 2 && added[1] in added;
  }

  lemma WaitIsTold(cfg: Config, s: NodeState, input: CycleInput, rank: nat)
    requires GateOf(cfg, Refreshing(cfg, s, input.first), input.health, input.identity).Proceed?
    requires TakeoverRank(cfg, Refreshing(cfg, s, input.first).view) == Some(rank) && rank > 0
    ensures ToldByAnswers(cfg, s, input)
  {
    hide GateOf, Demoting, Promoting, Finish, TellsHow, TookHold, TakeoverRank, Refreshing;
    CycleByGate(cfg, s, input);
    FirstEvent(cfg, s, input);
    ClockStays(cfg, s, input.first);
    var seen := Refreshing(cfg, s, input.first);
    FinishTells(cfg, seen.(clock := s.clock + rank * cfg.pollInterval), input);
    var added := NewEvents(cfg, s, input);
    assert |added| > 1 && added[|added| - 1] in added;
  }

  lemma ClockStays(cfg: Config, s: NodeState, answer: Answer<seq<G.Entry>>)
    ensures Refreshing(cfg, s, answer).clock == s.clock
  {
  }

  lemma NothingIsTold(cfg: Config, s: NodeState, input: CycleInput)
    requires Cycle(cfg, s, input) == Refreshing(cfg, s, input.first) && !Begin(cfg, s, input).1.Wait?
    ensures ToldByAnswers(cfg, s, input)
  {
    FirstEvent(cfg, s, input);
    hide Begin, Cycle;
  }

  lemma ProceedIsTold(cfg: Config, s: NodeState, input: CycleInput)
    requires GateOf(cfg, Refreshing(cfg, s, input.first), input.health, input.identity).Proceed?
    ensures ToldByAnswers(cfg, s, input)
  {
    hide ToldByAnswers, Refreshing, TakeoverRank, GateOf;
    CycleByGate(cfg, s, input);
    match TakeoverRank(cfg, Refreshing(cfg, s, input.first).view)
    case None => NothingIsTold(cfg, s, input);
    case Some(rank) =>
      if rank == 0 {
        AttemptIsTold(cfg, s, input);
      } else {
        WaitIsTold(cfg, s, input, rank);
      }
  }

  /**
   The command of a cycle, in terms of the answers: an active one is confirmed exactly if it
   ran and the node then reports the active key; a passive one, started with the cycle, exactly
   if it ran and the node reports another key, and only then the node looks again.  And the
   cycle takes as long as its takeover delay and its command.
   */
  lemma CommandsTellHow(cfg: Config, s: NodeState, input: CycleInput)
    ensures ToldByAnswers(cfg, s, input)
  {
    hide ToldByAnswers;
    match GateOf(cfg, Refreshing(cfg, s, input.first), input.health, input.identity)
    case Halt => HaltIsTold(cfg, s, input);
    case Demote => DemoteIsTold(cfg, s, input);
    case Proceed => ProceedIsTold(cfg, s, input);
  }

  lemma HaltIsTold(cfg: Config, s: NodeState, input: CycleInput)
    requires GateOf(cfg, Refreshing(cfg, s, input.first), input.health, input.identity).Halt?
    ensures ToldByAnswers(cfg, s, input)
  {
    hide ToldByAnswers, Refreshing;
    CycleByGate(cfg, s, input);
    NothingIsTold(cfg, s, input);
  }

  /** Only the gate that demotes leads to a passive command, only the one that proceeds to an active one. */
  lemma CommandByGate(cfg: Config, s: NodeState, input: CycleInput)
    ensures s.trace <= Cycle(cfg, s, input).trace
    ensures var added := NewEvents(cfg, s, input);
            var gate := GateOf(cfg, Refreshing(cfg, s, input.first), input.health, input.identity);
            && ((exists e :: e in added && e.BecomePassive?) <==> gate.Demote?)
            && ((exists e :: e in added && e.BecomeActive?) ==> gate.Proceed?)
  {
    hide Cycle, Refreshing, TakeoverRank;
    match GateOf(cfg, Refreshing(cfg, s, input.first), input.health, input.identity)
    case Halt => HaltShape(cfg, s, input);
    case Demote => DemoteShape(cfg, s, input);
      assert NewEvents(cfg, s, input)[1] in NewEvents(cfg, s, input);
    case Proceed => ProceedShape(cfg, s, input);
  }

  lemma VisibleMeansRead(cfg: Config, s: NodeState, es: seq<G.Entry>, ip: string)
    requires ValidConfig(cfg) && G.Declared(cfg.gossip, ip)
    ensures var rs := Readings(cfg.gossip, s.view.cache, es);
            G.HasIP(Refreshing(cfg, s, Ok(es)).view, ip) <==> PresentIn(cfg.gossip, rs, ip)
  {
    RefreshRefinesReadings(cfg.gossip, s.view, es);
    var view, rs := Refreshing(cfg, s, Ok(es)).view, Readings(cfg.gossip, s.view.cache, es);
    var name := G.NameAt(cfg.gossip, ip);
    assert RoleAsRead(cfg.gossip, rs, view.peers, name);
    if PresentIn(cfg.gossip, rs, ip) {
      assert view.peers[name].ip == ip;
    }
    forall n | n in view.peers && view.peers[n].ip == ip ensures n == name {
    }
  }

  lemma LostShowsNobody(cfg: Config, s: NodeState, ip: string)
    ensures !G.HasIP(Refreshing(cfg, s, Failed).view, ip)
  {
  }

  /** Some declared node at another IP than ours is in gossip and fit to be recorded. */
  ghost predicate OtherPresent(cfg: Config, rs: set<Reading>)
  {
    exists name :: name in cfg.gossip.peers && cfg.gossip.peers[name] != cfg.selfIP
                && PresentIn(cfg.gossip, rs, cfg.gossip.peers[name])
  }

  lemma PeersMeanOthersRead(cfg: Config, s: NodeState, es: seq<G.Entry>)
    requires ValidConfig(cfg)
    ensures G.HasPeers(Refreshing(cfg, s, Ok(es)).view, cfg.selfIP)
       <==> OtherPresent(cfg, Readings(cfg.gossip, s.view.cache, es))
  {
    RefreshRefinesReadings(cfg.gossip, s.view, es);
    var view, rs := Refreshing(cfg, s, Ok(es)).view, Readings(cfg.gossip, s.view.cache, es);
    forall name | name in cfg.gossip.peers
      ensures name in view.peers <==> PresentIn(cfg.gossip, rs, cfg.gossip.peers[name])
    {
      assert RoleAsRead(cfg.gossip, rs, view.peers, name);
    }
  }

  /**
   Whatever the settings and the answers: a cycle that sees an undeclared leader, the last one
   listed having a host, runs no role command.
   */
  lemma UndeclaredLeaderStopsCommands(cfg: Config, s: NodeState, input: CycleInput, k: nat)
    requires ValidConfig(cfg) && input.first.Ok?
    requires LastOutsideLeader(cfg.gossip, s.view.cache, input.first.value, |input.first.value|, k)
    requires G.HostOf(input.first.value[k].node.gossip) != ""
    ensures forall e :: e in NewEvents(cfg, s, input) ==> !IsCommand(e)
  {
    LastOutsideLeaderIsRecorded(cfg.gossip, s.view.missing, s.view.cache, input.first.value, |input.first.value|, k);
    HaltShape(cfg, s, input);
  }

  /** The count the first refresh leaves. */
  ghost function CountAfterFirst(cfg: Config, s: NodeState, input: CycleInput): nat
  {
    if input.first.Failed? then s.view.count
    else if LedIn(FirstReadings(cfg, s, input)) then 0
    else s.view.count + 1
  }

  /** The cycle is due to act: the threshold is reached, or the fast path is on and the flag is up. */
  ghost predicate Due(cfg: Config, s: NodeState, input: CycleInput)
  {
    CountAfterFirst(cfg, s, input) >= cfg.threshold || (cfg.bypass && FlaggedIn(FirstReadings(cfg, s, input)))
  }

  lemma DueMeansGate(cfg: Config, s: NodeState, input: CycleInput)
    requires ValidConfig(cfg) && Trusted(cfg, input)
    ensures var view := Refreshing(cfg, s, input.first).view;
            && view.count == CountAfterFirst(cfg, s, input)
            && (Due(cfg, s, input) <==> view.count >= cfg.threshold || (cfg.bypass && view.delinquent))
            && (Due(cfg, s, input) ==> !LedIn(FirstReadings(cfg, s, input)) && !G.HasUndeclared(view))
  {
    if input.first.Ok? {
      var es := input.first.value;
      RefreshRefinesReadings(cfg.gossip, s.view, es);
      ActiveMeansLed(cfg.gossip, s.view, es);
      if cfg.bypass {
        SteadyNeverSplits(cfg.gossip, s.view.cache, es);
      }
    }
  }

  /**
   Demotion, exactly: a cycle runs the passive command if and only if it is due and either
   its first refresh failed, or that refresh did not show us but did show another declared
   node.
   */
  lemma DemotionIsExact(cfg: Config, s: NodeState, input: CycleInput)
    requires ValidConfig(cfg) && Trusted(cfg, input)
    ensures (exists e :: e in NewEvents(cfg, s, input) && e.BecomePassive?)
       <==> Due(cfg, s, input)
            && (input.first.Failed?
                || (!PresentIn(cfg.gossip, FirstReadings(cfg, s, input), cfg.selfIP)
                    && OtherPresent(cfg, FirstReadings(cfg, s, input))))
  {
    CommandByGate(cfg, s, input);
    DueMeansGate(cfg, s, input);
    if input.first.Ok? {
      VisibleMeansRead(cfg, s, input.first.value, cfg.selfIP);
      PeersMeanOthersRead(cfg, s, input.first.value);
    }
  }

  /** A node that is invisible, alone, and has a working RPC is never demoted. */
  lemma SoleInvisibleNodeIsNotDemoted(cfg: Config, s: NodeState, input: CycleInput)
    requires ValidConfig(cfg) && Trusted(cfg, input) && input.first.Ok?
    requires !OtherPresent(cfg, FirstReadings(cfg, s, input))
    ensures forall e :: e in NewEvents(cfg, s, input) ==> !e.BecomePassive?
  {
    DemotionIsExact(cfg, s, input);
  }

  /** A visible node always finds its rank, so the delay never fails. */
  lemma VisibleNodeIsRanked(cfg: Config, s: NodeState, answer: Answer<seq<G.Entry>>)
    requires ValidConfig(cfg) && G.HasIP(Refreshing(cfg, s, answer).view, cfg.selfIP)
    ensures TakeoverRank(cfg, Refreshing(cfg, s, answer).view).Some?
  {
    var view := Refreshing(cfg, s, answer).view;
    var name :| name in view.peers && view.peers[name].ip == cfg.selfIP;
    assert cfg.selfIP in G.IPs(view.peers);
  }

  /** Who sets out to become active is healthy, for long enough, and not active, whatever gossip says. */
  lemma PromoterIsFit(cfg: Config, s: NodeState, input: CycleInput, e: Event)
    requires e in NewEvents(cfg, s, input) && e.BecomeActive?
    ensures input.health == Ok("ok") && input.identity != Ok(cfg.gossip.activePubkey)
    ensures s.streak.since.Some? && s.clock - s.streak.since.value >= cfg.health.minimumDuration
  {
    hide Cycle, G.Refreshed, NewEvents;
    CommandByGate(cfg, s, input);
  }

  /**
   What a promotion takes.  If a cycle sets out to become active, its first refresh
   succeeded, showed us and no leader at all; we were healthy now and for long enough and
   not active; and if we waited and could look again, there was still no leader.  It
   happens rank * pollInterval after the cycle began.
   */
  lemma PromotionTakes(cfg: Config, s: NodeState, input: CycleInput, e: Event)
    requires ValidConfig(cfg) && Trusted(cfg, input)
    requires e in NewEvents(cfg, s, input) && e.BecomeActive?
    ensures input.first.Ok? && Due(cfg, s, input)
    ensures PresentIn(cfg.gossip, FirstReadings(cfg, s, input), cfg.selfIP)
    ensures !LedIn(FirstReadings(cfg, s, input))
    ensures input.health == Ok("ok") && input.identity != Ok(cfg.gossip.activePubkey)
    ensures s.streak.since.Some? && s.clock - s.streak.since.value >= cfg.health.minimumDuration
    ensures var rank := TakeoverRank(cfg, Refreshing(cfg, s, input.first).view);
            && rank.Some? && e.at == s.clock + rank.value * cfg.pollInterval
            && (rank.value > 0 && input.second.Ok? ==> !LedIn(SecondReadings(cfg, s, input)))
  {
    LostShowsNobody(cfg, s, cfg.selfIP);
    hide Cycle, TakeoverRank, Readings, G.Refreshed;
    CommandByGate(cfg, s, input);
    ProceedShape(cfg, s, input);
    DueMeansGate(cfg, s, input);
    var seen := Refreshing(cfg, s, input.first);
    VisibleMeansRead(cfg, s, (match input.first case Ok(es) => es case Failed => []), cfg.selfIP);
    VisibleNodeIsRanked(cfg, s, input.first);
    var rank := TakeoverRank(cfg, seen.view).value;
    if rank > 0 && input.second.Ok? {
      RefreshRefinesReadings(cfg.gossip, seen.view, input.second.value);
    }
  }

  /** After the delay the count and the undeclared leader say no more than whether somebody leads. */
  lemma SecondLook(cfg: Config, s: NodeState, answer: Answer<seq<G.Entry>>)
    requires ValidConfig(cfg) && s.view.count > 0
    ensures var again := Refreshing(cfg, s, answer).view;
            (!G.HasUndeclared(again) && again.count != 0)
            <==> (answer.Ok? ==> !LedIn(Readings(cfg.gossip, s.view.cache, answer.value)))
  {
    if answer.Ok? {
      RefreshRefinesReadings(cfg.gossip, s.view, answer.value);
    }
  }

  /**
   Promotion, exactly: a cycle runs the active command if and only if it is due, its first
   refresh showed us, we are healthy, for long enough, and not active, and we either rank
   first or find no leader when we look again; a failed second look finds none.
   */
  lemma PromotionIsExact(cfg: Config, s: NodeState, input: CycleInput)
    requires ValidConfig(cfg) && Trusted(cfg, input)
    ensures (exists e :: e in NewEvents(cfg, s, input) && e.BecomeActive?)
       <==> Due(cfg, s, input) && PresentIn(cfg.gossip, FirstReadings(cfg, s, input), cfg.selfIP)
            && input.health == Ok("ok") && input.identity != Ok(cfg.gossip.activePubkey)
            && s.streak.since.Some? && s.clock - s.streak.since.value >= cfg.health.minimumDuration
            && (TakeoverRank(cfg, Refreshing(cfg, s, input.first).view) == Some(0)
                || !LedIn(SecondReadings(cfg, s, input)))
  {
    CommandByGate(cfg, s, input);
    DueMeansGate(cfg, s, input);
    LostShowsNobody(cfg, s, cfg.selfIP);
    var seen := Refreshing(cfg, s, input.first);
    if input.first.Ok? {
      VisibleMeansRead(cfg, s, input.first.value, cfg.selfIP);
    }
    if GateOf(cfg, seen, input.health, input.identity).Proceed? {
      ProceedIsExact(cfg, s, input);
    }
  }

  lemma ProceedNeedsSight(cfg: Config, s: NodeState, input: CycleInput)
    requires ValidConfig(cfg) && Trusted(cfg, input)
    requires GateOf(cfg, Refreshing(cfg, s, input.first), input.health, input.identity).Proceed?
    ensures var view := Refreshing(cfg, s, input.first).view; view.count > 0 && G.HasIP(view, cfg.selfIP)
  {
    DueMeansGate(cfg, s, input);
    LostShowsNobody(cfg, s, cfg.selfIP);
    hide Readings, G.Refreshed;
  }

  lemma ProceedIsExact(cfg: Config, s: NodeState, input: CycleInput)
    requires ValidConfig(cfg) && Trusted(cfg, input)
    requires GateOf(cfg, Refreshing(cfg, s, input.first), input.health, input.identity).Proceed?
    ensures (exists e :: e in NewEvents(cfg, s, input) && e.BecomeActive?)
       <==> TakeoverRank(cfg, Refreshing(cfg, s, input.first).view) == Some(0) || !LedIn(SecondReadings(cfg, s, input))
  {
    hide Cycle, TakeoverRank, Readings, G.Refreshed, GateOf, NewEvents;
    ProceedNeedsSight(cfg, s, input);
    ProceedShape(cfg, s, input);
    VisibleNodeIsRanked(cfg, s, input.first);
    var seen := Refreshing(cfg, s, input.first);
    var rank, added := TakeoverRank(cfg, seen.view).value, NewEvents(cfg, s, input);
    SecondLook(cfg, seen.(clock := s.clock + rank * cfg.pollInterval), input.second);
    assert |added| > 1 && added[|added| - 1] in added;
  }

  /**
   And through the health history: when a cycle sets out to become active, every sample
   that exhausted the grace count is at least the minimum duration old.
   */
  lemma {:induction false} PromotionNeedsHealthyHistory(
    cfg: Config, s: NodeState, input: CycleInput, e: Event, history: seq<H.Sample>, i: nat)
    requires e in NewEvents(cfg, s, input) && e.BecomeActive?
    requires s.streak == H.StreakAfter(cfg.health, history, |history|)
    requires forall j, k :: 0 <= j < k < |history| ==> history[j].at <= history[k].at
    requires i < |history| && H.Exhausted(cfg.health, history, i)
    ensures s.clock - history[i].at >= cfg.health.minimumDuration
  {
    PromoterIsFit(cfg, s, input, e);
    H.NoRecentOutage(cfg.health, history, s.clock, i);
  }

  // ---------------------------------------------------------------- the abort that names nobody

  /** After the delay the count is 0 and yet nobody can be named as the active peer. */
  ghost predicate AbortsUnnamed(cfg: Config, s: NodeState, input: CycleInput)
  {
    var (begun, decision) := Begin(cfg, s, input);
    var view := Refreshing(cfg, begun, input.second).view;
    decision.Wait? && !G.HasUndeclared(view) && view.count == 0 && !G.HasActivePeer(view)
  }

  /**
   The branch that aborts because the active peer could not be identified is dead, but for
   one case: the revalidating refresh shows no active declared peer and its last undeclared
   entry voting under the active key has an empty host.
   */
  lemma UnnamedAbortIsExact(cfg: Config, s: NodeState, input: CycleInput)
    requires ValidConfig(cfg) && Trusted(cfg, input)
    ensures AbortsUnnamed(cfg, s, input)
       <==> && Begin(cfg, s, input).1.Wait? && input.second.Ok?
            && (forall r :: r in SecondReadings(cfg, s, input) && r.leads ==> !G.Declared(cfg.gossip, G.HostOf(r.node.gossip)))
            && exists k: nat :: LastOutsideLeader(cfg.gossip, Refreshing(cfg, s, input.first).view.cache, input.second.value, |input.second.value|, k)
                             && G.HostOf(input.second.value[k].node.gossip) == ""
  {
    var (begun, decision) := Begin(cfg, s, input);
    DueMeansGate(cfg, s, input);
    if decision.Wait? {
      assert begun == Refreshing(cfg, s, input.first);
      assert begun.view.count > 0;
      if input.second.Ok? {
        CountZeroButNobodyNamed(cfg.gossip, begun.view, input.second.value);
      }
    }
  }
}
