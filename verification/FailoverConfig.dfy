/**
 The failover settings: defaults, the rules the peers and priorities must meet, and the
 takeover ranks derived from explicit priorities.
 */
module FailoverConfig {
  import opened Answers
  import opened Durations
  import opened Ordering

  datatype Peer = Peer(ip: string, priority: Option<int>)

  datatype Error =
    | PollIntervalZero
    | ThresholdNotPositive
    | ConfirmationPollTooLong
    | MinimumDurationNotPositive
    | HealthPollNotPositive
    | NoPeers
    | InvalidIP(name: string)
    | DuplicateIP(name: string)
    | PartialPriorities
    | NegativePriority(owner: Option<string>)
    | DuplicatePriority(name: string)

  ghost predicate ValidUniqueIPs(isIPv4: string -> bool, peers: map<string, Peer>)
  {
    && (forall n :: n in peers ==> isIPv4(peers[n].ip))
    && (forall m, n :: m in peers && n in peers && peers[m].ip == peers[n].ip ==> m == n)
  }

  /** Nobody declares a priority, or we and every peer do, all different and none negative. */
  ghost predicate AllOrNothing(own: Option<int>, peers: map<string, Peer>)
  {
    if own.None? then
      forall n :: n in peers ==> peers[n].priority.None?
    else
      && own.value >= 0
      && (forall n :: n in peers ==> peers[n].priority.Some? && peers[n].priority.value >= 0)
      && (forall n :: n in peers ==> peers[n].priority != own)
      && (forall m, n :: m in peers && n in peers && m != n ==> peers[m].priority != peers[n].priority)
  }

  ghost predicate SaneNumbers(f: Failover)
    reads f
  {
    && f.pollInterval != 0 && f.leaderlessSamplesThreshold > 0
    && f.confirmationPoll <= f.pollInterval
    && f.minimumDuration > 0 && f.healthPollInterval > 0
  }

  /** The error names a fault that is there. */
  ghost predicate Blames(e: Error, f: Failover, isIPv4: string -> bool)
    reads f
  {
    match e
    case PollIntervalZero => f.pollInterval == 0
    case ThresholdNotPositive => f.leaderlessSamplesThreshold <= 0
    case ConfirmationPollTooLong => f.confirmationPoll > f.pollInterval
    case MinimumDurationNotPositive => f.minimumDuration <= 0
    case HealthPollNotPositive => f.healthPollInterval <= 0
    case NoPeers => f.peers == map[]
    case InvalidIP(n) => n in f.peers && !isIPv4(f.peers[n].ip)
    case DuplicateIP(n) => n in f.peers && exists m :: m in f.peers && m != n && f.peers[m].ip == f.peers[n].ip
    case PartialPriorities =>
      if f.priority.Some? then exists n :: n in f.peers && f.peers[n].priority.None?
      else exists n :: n in f.peers && f.peers[n].priority.Some?
    case NegativePriority(None) => f.priority.Some? && f.priority.value < 0
    case NegativePriority(Some(n)) => n in f.peers && f.peers[n].priority.Some? && f.peers[n].priority.value < 0
    case DuplicatePriority(n) =>
      && n in f.peers && f.peers[n].priority.Some?
      && (f.peers[n].priority == f.priority || exists m :: m in f.peers && m != n && f.peers[m].priority == f.peers[n].priority)
  }

  ghost function WithPriority(peers: map<string, Peer>): set<string>
  {
    set n | n in peers && peers[n].priority.Some?
  }

  datatype RankEntry = RankEntry(ip: string, priority: int)

  ghost function EntriesAt(peers: map<string, Peer>, names: set<string>): set<RankEntry>
    requires names <= WithPriority(peers)
  {
    set n | n in names :: RankEntry(peers[n].ip, peers[n].priority.value)
  }

  /** The declared priorities by IP: our own, and those of the peers that have one. */
  ghost function Entries(selfIP: string, own: int, peers: map<string, Peer>): set<RankEntry>
  {
    {RankEntry(selfIP, own)} + EntriesAt(peers, WithPriority(peers))
  }

  /** No IP and no priority is used twice. */
  ghost predicate Rankable(S: set<RankEntry>)
  {
    forall e, f :: e in S && f in S && e != f ==> e.ip != f.ip && e.priority != f.priority
  }

  /** The peers that carry a priority have different IPs, none of them ours. */
  ghost predicate IPsDiffer(selfIP: string, peers: map<string, Peer>)
  {
    && (forall n :: n in WithPriority(peers) ==> peers[n].ip != selfIP)
    && (forall m, n :: m in WithPriority(peers) && n in WithPriority(peers) && peers[m].ip == peers[n].ip ==> m == n)
  }

  predicate EntryLess(a: RankEntry, b: RankEntry)
  {
    a.priority < b.priority
  }

  /** Every IP of `S` is ranked by the number of entries with a lower priority value. */
  ghost predicate RankedBy(ranks: map<string, nat>, S: set<RankEntry>)
  {
    && (forall ip :: ip in ranks <==> exists e :: e in S && e.ip == ip)
    && (forall e :: e in S ==> ranks[e.ip] == RankOf(S, EntryLess, e))
  }

  /** Every listed IP is mapped to the last position at which it is listed. */
  ghost predicate LastPositions(ranks: map<string, nat>, listing: seq<RankEntry>)
  {
    && (forall k :: 0 <= k < |listing| ==> listing[k].ip in ranks && k <= ranks[listing[k].ip])
    && (forall ip :: ip in ranks ==> ranks[ip] < |listing| && listing[ranks[ip]].ip == ip)
  }

  class Failover {
    var pollInterval: int
    var leaderlessSamplesThreshold: int
    var confirmationPoll: int
    var minimumDuration: int
    var healthPollInterval: int
    var unhealthyGraceCount: int
    var priority: Option<int>
    var peers: map<string, Peer>

    constructor (pollInterval: int, threshold: int, confirmationPoll: int, minimumDuration: int,
                 healthPollInterval: int, grace: int, priority: Option<int>, peers: map<string, Peer>)
      ensures this.pollInterval == pollInterval && leaderlessSamplesThreshold == threshold
      ensures this.confirmationPoll == confirmationPoll && this.minimumDuration == minimumDuration
      ensures this.healthPollInterval == healthPollInterval && unhealthyGraceCount == grace
      ensures this.priority == priority && this.peers == peers
    {
      this.pollInterval, leaderlessSamplesThreshold, this.confirmationPoll := pollInterval, threshold, confirmationPoll;
      this.minimumDuration, this.healthPollInterval := minimumDuration, healthPollInterval;
      unhealthyGraceCount, this.priority, this.peers := grace, priority, peers;
    }

    /** Fills in what was left at zero.  A grace count of zero is filled in too, so it cannot be asked for. */
    method SetDefaults()
      modifies this
      ensures pollInterval == (if old(pollInterval) == 0 then 5_000_000_000 else old(pollInterval))
      ensures leaderlessSamplesThreshold == (if old(leaderlessSamplesThreshold) == 0 then 3 else old(leaderlessSamplesThreshold))
      ensures minimumDuration == (if old(minimumDuration) == 0 then 30_000_000_000 else old(minimumDuration))
      ensures healthPollInterval == (if old(healthPollInterval) == 0 then 2_000_000_000 else old(healthPollInterval))
      ensures unhealthyGraceCount == (if old(unhealthyGraceCount) == 0 then 1 else old(unhealthyGraceCount))
      ensures confirmationPoll == (if old(confirmationPoll) == 0 then pollInterval else old(confirmationPoll))
      ensures unhealthyGraceCount != 0
      ensures priority == old(priority) && peers == old(peers)
    {
      if pollInterval == 0 {
        pollInterval := 5 * SECOND;
      }
      if leaderlessSamplesThreshold == 0 {
        leaderlessSamplesThreshold := 3;
      }
      if minimumDuration == 0 {
        minimumDuration := 30 * SECOND;
      }
      if healthPollInterval == 0 {
        healthPollInterval := 2 * SECOND;
      }
      if unhealthyGraceCount == 0 {
        unhealthyGraceCount := 1;
      }
      if confirmationPoll == 0 {
        confirmationPoll := pollInterval;
      }
    }

    /**
     Which fault of the peers is named depends on the order in which they are visited; that
     it is a fault, and the verdict, do not.
     */
    method Validate(isIPv4: string -> bool) returns (error: Option<Error>)
      ensures error.None? <==>
                && SaneNumbers(this) && peers != map[]
                && ValidUniqueIPs(isIPv4, peers) && AllOrNothing(priority, peers)
      ensures error.Some? ==> Blames(error.value, this, isIPv4)
    {
      if pollInterval == 0 {
        return Some(PollIntervalZero);
      }
      if leaderlessSamplesThreshold <= 0 {
        return Some(ThresholdNotPositive);
      }
      if confirmationPoll > pollInterval {
        return Some(ConfirmationPollTooLong);
      }
      if minimumDuration <= 0 {
        return Some(MinimumDurationNotPositive);
      }
      if healthPollInterval <= 0 {
        return Some(HealthPollNotPositive);
      }
      if |peers| == 0 {
        return Some(NoPeers);
      }
      error := ValidateIPs(isIPv4);
      if error.Some? {
        return;
      }
      error := ValidatePriorities(isIPv4);
    }

    method ValidateIPs(isIPv4: string -> bool) returns (error: Option<Error>)
      ensures error.None? <==> ValidUniqueIPs(isIPv4, peers)
      ensures error.Some? ==> Blames(error.value, this, isIPv4)
    {
      var ips: set<string>, rest := {}, peers.Keys;
      while rest != {}
        invariant rest <= peers.Keys
        invariant ips == set n | n in peers && n !in rest :: peers[n].ip
        invariant forall n :: n in peers && n !in rest ==> isIPv4(peers[n].ip)
        invariant forall m, n :: m in peers && n in peers && m !in rest && n !in rest && peers[m].ip == peers[n].ip ==> m == n
      {
        var name :| name in rest;
        if !isIPv4(peers[name].ip) {
          return Some(InvalidIP(name));
        }
        if peers[name].ip in ips {
          return Some(DuplicateIP(name));
        }
        ips, rest := ips + {peers[name].ip}, rest - {name};
      }
      return None;
    }

    method CountWithPriority() returns (count: nat)
      ensures count == |WithPriority(peers)|
    {
      count := 0;
      var rest := peers.Keys;
      ghost var counted: set<string> := {};
      while rest != {}
        invariant rest <= peers.Keys
        invariant counted == set n | n in peers && n !in rest && peers[n].priority.Some?
        invariant count == |counted|
      {
        var name :| name in rest;
        if peers[name].priority.Some? {
          count := count + 1;
          counted := counted + {name};
        }
        rest := rest - {name};
      }
      assert counted == WithPriority(peers);
    }

    method ValidatePriorities(ghost isIPv4: string -> bool) returns (error: Option<Error>)
      ensures error.None? <==> AllOrNothing(priority, peers)
      ensures error.Some? ==> Blames(error.value, this, isIPv4)
    {
      var peersWithPriority := CountWithPriority();
      var totalWithPriority := peersWithPriority + if priority.Some? then 1 else 0;
      var totalNodes := 1 + |peers|;
      SubsetSize(WithPriority(peers), peers.Keys);
      if 0 < totalWithPriority < totalNodes {
        SomeoneHasNone(peers);
        return Some(PartialPriorities);
      }
      if priority.None? {
        assert WithPriority(peers) == {};
        assert forall n :: n in peers && peers[n].priority.Some? ==> n in WithPriority(peers);
        return None;
      }
      assert WithPriority(peers) == peers.Keys;
      assert forall n :: n in peers ==> n in WithPriority(peers);
      if priority.value < 0 {
        return Some(NegativePriority(None));
      }
      var seen, rest := {priority.value}, peers.Keys;
      while rest != {}
        invariant rest <= peers.Keys
        invariant seen == {priority.value} + set n | n in peers && n !in rest :: peers[n].priority.value
        invariant forall n :: n in peers && n !in rest ==> peers[n].priority.value >= 0 && peers[n].priority != priority
        invariant forall m, n :: m in peers && n in peers && m !in rest && n !in rest && m != n ==>
                    peers[m].priority != peers[n].priority
      {
        var name :| name in rest;
        if peers[name].priority.value < 0 {
          return Some(NegativePriority(Some(name)));
        }
        if peers[name].priority.value in seen {
          assert priority == peers[name].priority
              || exists n :: n in peers && n !in rest && peers[n].priority.value == peers[name].priority.value;
          return Some(DuplicatePriority(name));
        }
        seen, rest := seen + {peers[name].priority.value}, rest - {name};
      }
      return None;
    }

    /** What initialize does before monitoring: refuse a peer with our own IP, then add us without a priority. */
    method AddSelf(name: string, ip: string) returns (ok: bool)
      modifies this`peers
      ensures ok <==> forall n :: n in old(peers) ==> old(peers)[n].ip != ip
      ensures peers == if ok then old(peers)[name := Peer(ip, None)] else old(peers)
    {
      var rest := peers.Keys;
      while rest != {}
        invariant rest <= peers.Keys && peers == old(peers)
        invariant forall n :: n in peers && n !in rest ==> peers[n].ip != ip
      {
        var n :| n in rest;
        if peers[n].ip == ip {
          return false;
        }
        rest := rest - {n};
      }
      peers := peers[name := Peer(ip, None)];
      return true;
    }

    /**
     Ranks by explicit priority, or nothing when we declare none: positions in some sorted
     listing of the entries, the last one where an IP is listed twice.  Where IPs and
     priorities are unique these are the ranks by priority.
     */
    method PeerIPPriorityRankMap(selfIP: string) returns (ranks: Option<map<string, nat>>)
      ensures ranks.Some? <==> priority.Some?
      ensures ranks.Some? ==>
                exists sorted ::
                  && LastPositions(ranks.value, sorted) && Sorted(EntryLess, sorted)
                  && |sorted| == 1 + |WithPriority(peers)|
                  && Elements(sorted) == Entries(selfIP, priority.value, peers)
      ensures ranks.Some? && IPsDiffer(selfIP, peers) && Rankable(Entries(selfIP, priority.value, peers)) ==>
                RankedBy(ranks.value, Entries(selfIP, priority.value, peers))
    {
      if priority.None? {
        return None;
      }
      var entries := CollectEntries(selfIP);
      var sorted := SortEntries(entries);
      var rankMap := NumberInOrder(sorted);
      if IPsDiffer(selfIP, peers) && Rankable(Entries(selfIP, priority.value, peers)) {
        SortedEntriesAreRanks(sorted, rankMap);
      }
      return Some(rankMap);
    }

    static method SortEntries(entries: seq<RankEntry>) returns (sorted: seq<RankEntry>)
      ensures Sorted(EntryLess, sorted) && |sorted| == |entries| && Elements(sorted) == Elements(entries)
      ensures Distinct(entries) ==> Distinct(sorted)
    {
      EntryOrder(Elements(entries));
      sorted := Sort(entries, EntryLess);
      assert |sorted| == |multiset(sorted)| == |multiset(entries)|;
      forall e ensures e in sorted <==> e in entries {
        assert e in multiset(sorted) <==> e in multiset(entries);
      }
      if Distinct(entries) {
        SameElements(sorted, entries);
      }
    }

    static method NumberInOrder(sorted: seq<RankEntry>) returns (rankMap: map<string, nat>)
      ensures LastPositions(rankMap, sorted)
    {
      rankMap := map[];
      for i := 0 to |sorted|
        invariant LastPositions(rankMap, sorted[..i])
      {
        rankMap := rankMap[sorted[i].ip := i];
      }
      assert sorted[..|sorted|] == sorted;
    }

    method CollectEntries(selfIP: string) returns (entries: seq<RankEntry>)
      requires priority.Some?
      ensures Elements(entries) == Entries(selfIP, priority.value, peers) && |entries| == 1 + |WithPriority(peers)|
      ensures IPsDiffer(selfIP, peers) ==> Distinct(entries)
    {
      entries := [RankEntry(selfIP, priority.value)];
      var rest := peers.Keys;
      ghost var done: set<string> := {};
      while rest != {}
        invariant rest <= peers.Keys
        invariant done == set n | n in WithPriority(peers) && n !in rest
        invariant done <= WithPriority(peers) && |entries| == 1 + |done|
        invariant Elements(entries) == {RankEntry(selfIP, priority.value)} + EntriesAt(peers, done)
        invariant IPsDiffer(selfIP, peers) ==> Distinct(entries)
      {
        var name :| name in rest;
        if peers[name].priority.Some? {
          var e := RankEntry(peers[name].ip, peers[name].priority.value);
          OneMoreEntry(selfIP, priority.value, peers, done, name);
          assert e in Elements(entries) <==> e in entries;
          assert Elements(entries + [e]) == Elements(entries) + {e};
          entries := entries + [e];
          done := done + {name};
        }
        rest := rest - {name};
      }
      assert done == WithPriority(peers);
    }
  }

  /** Validation rejects an interval of zero, but lets a negative one pass. */
  method NegativeIntervalPasses() returns (f: Failover, error: Option<Error>)
    ensures f.pollInterval < 0 && error.None?
  {
    f := new Failover(-SECOND, 0, 0, 0, 0, 0, None, map["them" := Peer("10.0.0.2", None)]);
    f.SetDefaults();
    var isIPv4 := (ip: string) => true;
    assert "them" in f.peers;
    assert SaneNumbers(f) && ValidUniqueIPs(isIPv4, f.peers) && AllOrNothing(f.priority, f.peers);
    error := f.Validate(isIPv4);
  }

  lemma OneMoreEntry(selfIP: string, own: int, peers: map<string, Peer>, done: set<string>, name: string)
    requires done <= WithPriority(peers) && name in WithPriority(peers) && name !in done
    ensures EntriesAt(peers, done + {name}) == EntriesAt(peers, done) + {RankEntry(peers[name].ip, peers[name].priority.value)}
    ensures IPsDiffer(selfIP, peers) ==>
              RankEntry(peers[name].ip, peers[name].priority.value) !in {RankEntry(selfIP, own)} + EntriesAt(peers, done)
  {
  }

  lemma SomeoneHasNone(peers: map<string, Peer>)
    ensures |WithPriority(peers)| < |peers| ==> exists n :: n in peers && peers[n].priority.None?
    ensures |WithPriority(peers)| > 0 ==> exists n :: n in peers && peers[n].priority.Some?
  {
    SubsetSize(WithPriority(peers), peers.Keys);
    assert |peers.Keys| == |peers|;
    if |WithPriority(peers)| < |peers| {
      assert WithPriority(peers) != peers.Keys;
    }
    if |WithPriority(peers)| > 0 {
      var n :| n in WithPriority(peers);
    }
  }

  // ---------------------------------------------------------------- what the ranks promise across nodes

  lemma EntryOrder(S: set<RankEntry>)
    ensures WeakOrder(EntryLess)
    ensures Rankable(S) ==> NoTies(EntryLess, S)
  {
  }

  lemma SortedEntriesAreRanks(sorted: seq<RankEntry>, rankMap: map<string, nat>)
    requires Rankable(Elements(sorted)) && Distinct(sorted) && Sorted(EntryLess, sorted)
    requires LastPositions(rankMap, sorted)
    ensures RankedBy(rankMap, Elements(sorted))
  {
    var S := Elements(sorted);
    EntryOrder(S);
    forall e | e in S ensures e.ip in rankMap && rankMap[e.ip] == RankOf(S, EntryLess, e) {
      var k :| 0 <= k < |sorted| && sorted[k] == e;
      assert sorted[rankMap[e.ip]] in S;
      PositionIsRank(EntryLess, sorted, k);
    }
    forall ip | ip in rankMap ensures exists e :: e in S && e.ip == ip {
      assert sorted[rankMap[ip]] in S;
    }
  }

  /** After a successful Validate and after adding us, the conditions of PeerIPPriorityRankMap hold. */
  lemma ValidatedPrioritiesAreRankable(isIPv4: string -> bool, own: int, peers: map<string, Peer>, name: string, selfIP: string)
    requires ValidUniqueIPs(isIPv4, peers) && AllOrNothing(Some(own), peers)
    requires forall n :: n in peers ==> peers[n].ip != selfIP
    ensures var added := peers[name := Peer(selfIP, None)];
            IPsDiffer(selfIP, added) && Rankable(Entries(selfIP, own, added))
  {
  }

  /**
   Adding us, without a priority, changes nobody's priority exactly if our name is not that
   of a peer with a priority: such a peer would be overwritten.
   */
  lemma SelfKeepsPriorities(own: int, peers: map<string, Peer>, name: string, selfIP: string)
    requires IPsDiffer(selfIP, peers)
    ensures Entries(selfIP, own, peers[name := Peer(selfIP, None)]) == Entries(selfIP, own, peers)
       <==> name !in WithPriority(peers)
  {
    var added := peers[name := Peer(selfIP, None)];
    assert WithPriority(added) == WithPriority(peers) - {name};
    assert forall n :: n in WithPriority(peers) && n != name ==> added[n] == peers[n];
    if name in WithPriority(peers) {
      var lost := RankEntry(peers[name].ip, peers[name].priority.value);
      assert lost in Entries(selfIP, own, peers) && lost !in Entries(selfIP, own, added);
    }
  }

  lemma SelfIsRanked(ranks: map<string, nat>, selfIP: string, own: int, peers: map<string, Peer>)
    requires RankedBy(ranks, Entries(selfIP, own, peers))
    ensures selfIP in ranks
  {
    assert RankEntry(selfIP, own) in Entries(selfIP, own, peers);
  }

  /** Priority ranks use each of 0..n-1 once, in priority order. */
  lemma PriorityRanksInOrder(ranks: map<string, nat>, S: set<RankEntry>)
    requires Rankable(S) && RankedBy(ranks, S)
    ensures forall e :: e in S ==> ranks[e.ip] < |S|
    ensures forall e, f :: e in S && f in S ==> (e.priority < f.priority <==> ranks[e.ip] < ranks[f.ip])
    ensures forall k: nat | k < |S| :: k in ranks.Values
  {
    EntryOrder(S);
    RanksExist(S, EntryLess);
    var m := map e | e in S :: RankOf(S, EntryLess, e);
    forall k: nat | k < |S| ensures k in ranks.Values {
      assert k in m.Values;
      var e :| e in m && m[e] == k;
      assert e.ip in ranks.Keys && ranks[e.ip] == k;
    }
    forall e, f | e in S && f in S ensures e.priority < f.priority <==> ranks[e.ip] < ranks[f.ip] {
      assert EntryLess(e, f) <==> m[e] < m[f];
    }
  }

  // ---------------------------------------------------------------- one assignment, many nodes

  /** The settings of the node at `ip` give its own and every other IP's priority as `all` assigns them. */
  ghost predicate Follows(all: map<string, int>, ip: string, own: Option<int>, peers: map<string, Peer>)
  {
    && ip in all && own == Some(all[ip])
    && (forall n :: n in peers ==> peers[n].ip in all && peers[n].ip != ip && peers[n].priority == Some(all[peers[n].ip]))
    && (forall other :: other in all && other != ip ==> exists n :: n in peers && peers[n].ip == other)
  }

  ghost function Assigned(all: map<string, int>): set<RankEntry>
  {
    set ip | ip in all :: RankEntry(ip, all[ip])
  }

  /**
   Nodes that follow one assignment rank by the same entries, whoever they are, also once
   they have added themselves to their peers under a new name.
   */
  lemma FollowersShareEntries(
    all: map<string, int>, ip: string, own: Option<int>, peers: map<string, Peer>, name: string)
    requires Follows(all, ip, own, peers) && name !in peers
    ensures Entries(ip, all[ip], peers[name := Peer(ip, None)]) == Assigned(all)
  {
    var added := peers[name := Peer(ip, None)];
    forall e ensures e in Entries(ip, all[ip], added) <==> e in Assigned(all) {
      if e in Assigned(all) && e.ip != ip {
        var n :| n in peers && peers[n].ip == e.ip;
        assert n in WithPriority(added);
      }
    }
  }

  /** An assignment that a validated node follows gives no two IPs the same priority. */
  lemma FollowedIsRankable(all: map<string, int>, ip: string, own: Option<int>, peers: map<string, Peer>)
    requires Follows(all, ip, own, peers) && AllOrNothing(own, peers)
    ensures Rankable(Assigned(all))
  {
    forall a, b | a in all && b in all && a != b ensures all[a] != all[b] {
      if a != ip && b != ip {
        var m :| m in peers && peers[m].ip == a;
        var n :| n in peers && peers[n].ip == b;
        assert m != n;
      } else {
        var other := if a == ip then b else a;
        var n :| n in peers && peers[n].ip == other;
      }
    }
  }

  /** Two nodes that know the same priorities hold the same ranks, whatever order their maps are visited in. */
  lemma SamePrioritiesSameRanks(mine: map<string, nat>, theirs: map<string, nat>, S: set<RankEntry>)
    requires RankedBy(mine, S) && RankedBy(theirs, S)
    ensures mine == theirs
  {
    forall ip | ip in mine ensures ip in theirs && mine[ip] == theirs[ip] {
      var e :| e in S && e.ip == ip;
    }
    forall ip | ip in theirs ensures ip in mine {
      var e :| e in S && e.ip == ip;
    }
  }
}
