/**
 The gossip state of one node: what it believes about its peers after each refresh, the
 count of leaderless samples, and the cache of vote account keys.

 Every remote call is fed in as an answer of its own.  One entry of the cluster node
 list carries the answers that judging this very entry may ask for, so two entries of
 one refresh may well be judged by different answers.
 */
module Gossip {
  import opened Answers
  import opened Ordering

  // ---------------------------------------------------------------- data

  /** A row of getClusterNodes: gossip address `ip:port` and identity key. */
  datatype Node = Node(gossip: string, pubkey: string)

  datatype VoteAccount = VoteAccount(nodePubkey: string, votePubkey: string)

  /** An answer of getVoteAccounts. */
  datatype VoteTable = VoteTable(current: seq<VoteAccount>, delinquent: seq<VoteAccount>)

  /**
   The answers available while one entry is judged: getVoteAccounts, filtered by a vote
   key (`Some`) or unfiltered (`None`), and getBalance.
   */
  datatype Probe = Probe(votes: Option<string> -> Answer<VoteTable>, balance: Answer<nat>)

  datatype Entry = Entry(node: Node, probe: Probe)

  /** The shared active identity, and the IP of every declared node by name, us included. */
  datatype Config = Config(activePubkey: string, peers: map<string, string>)

  datatype PeerState = PeerState(
    name: string, ip: string, pubkey: string, lastSeenActive: bool, isRecentlyInGossip: bool)

  /** The whole state a refresh reads and writes. */
  datatype View = View(
    peers: map<string, PeerState>,
    missing: set<string>,
    count: nat,
    rpcError: bool,
    undeclared: PeerState,
    delinquent: bool,
    cache: map<string, string>)

  const UNDECLARED_PEER_NAME := "config-undeclared-active-peer"
  const RENT_EXEMPT_MINIMUM := 890880
  const NO_PEER := PeerState("", "", "", false, false)
  const INITIAL_VIEW := View(map[], {}, 0, false, NO_PEER, false, map[])

  /** The part of a gossip address before the first colon. */
  function HostOf(gossip: string): (host: string)
    ensures ':' !in host && host <= gossip
    ensures |host| == |gossip| || gossip[|host|] == ':'
  {
    if gossip == [] || gossip[0] == ':' then [] else [gossip[0]] + HostOf(gossip[1..])
  }

  ghost predicate UniqueIPs(peers: map<string, string>)
  {
    forall m, n :: m in peers && n in peers && peers[m] == peers[n] ==> m == n
  }

  ghost predicate Declared(cfg: Config, ip: string)
  {
    exists name :: name in cfg.peers && cfg.peers[name] == ip
  }

  ghost function NameAt(cfg: Config, ip: string): (name: string)
    requires Declared(cfg, ip)
    ensures name in cfg.peers && cfg.peers[name] == ip
  {
    var name :| name in cfg.peers && cfg.peers[name] == ip;
    name
  }

  /** Every recorded peer is a declared one, under its own name and IP. */
  ghost predicate WellFormed(cfg: Config, peers: map<string, PeerState>)
  {
    forall n :: n in peers ==> n in cfg.peers && peers[n].name == n && peers[n].ip == cfg.peers[n]
  }

  // ---------------------------------------------------------------- judging an active entry

  function FindAccount(accounts: seq<VoteAccount>, pubkey: string): Option<VoteAccount>
  {
    if accounts == [] then None
    else if accounts[0].nodePubkey == pubkey then Some(accounts[0])
    else FindAccount(accounts[1..], pubkey)
  }

  datatype Weighed = Weighed(voting: bool, delinquent: bool, account: Option<VoteAccount>)

  /** What one vote table says about the identity `pubkey`. */
  function Weigh(table: VoteTable, balance: Answer<nat>, pubkey: string): Weighed
  {
    match FindAccount(table.delinquent, pubkey)
    case Some(account) =>
      var forgiven := balance.Failed? || balance.value <= RENT_EXEMPT_MINIMUM;
      Weighed(forgiven, !forgiven, Some(account))
    case None =>
      var account := FindAccount(table.current, pubkey);
      Weighed(account.Some?, false, account)
  }

  datatype Verdict = Verdict(voting: bool, delinquent: bool, cache: map<string, string>)

  /** The table that is looked at and the cache at that moment: filtered first, if a key is cached. */
  function Consult(cache: map<string, string>, pubkey: string, probe: Probe)
    : (Answer<VoteTable>, map<string, string>)
  {
    if pubkey in cache then
      var filtered := probe.votes(Some(cache[pubkey]));
      if filtered == Ok(VoteTable([], [])) then (probe.votes(None), cache - {pubkey})
      else (filtered, cache)
    else
      (probe.votes(None), cache)
  }

  /** The verdict on an identity: a failed call is forgiven, a delinquent one is reported. */
  function Judge(cache: map<string, string>, pubkey: string, probe: Probe): Verdict
  {
    var (answer, consulted) := Consult(cache, pubkey, probe);
    match answer
    case Failed => Verdict(true, false, consulted)
    case Ok(table) =>
      var w := Weigh(table, probe.balance, pubkey);
      Verdict(w.voting, w.delinquent,
              if w.account.Some? then consulted[pubkey := w.account.value.votePubkey] else consulted)
  }

  // ---------------------------------------------------------------- one refresh

  /** What has been gathered from the entries looked at so far. */
  datatype Scan = Scan(
    peers: map<string, PeerState>,
    undeclared: PeerState,
    leaderless: bool,
    delinquent: bool,
    cache: map<string, string>)

  /** Records a declared peer, unless it is already recorded as active. */
  ghost function Register(cfg: Config, missing: set<string>, s: Scan, node: Node, active: bool): Scan
    requires Declared(cfg, HostOf(node.gossip))
  {
    var ip := HostOf(node.gossip);
    var name := NameAt(cfg, ip);
    if name in s.peers && s.peers[name].lastSeenActive then s
    else s.(peers := s.peers[name := PeerState(name, ip, node.pubkey, active, ip in missing)],
            leaderless := s.leaderless && !active)
  }

  ghost function Absorb(cfg: Config, missing: set<string>, s: Scan, e: Entry): Scan
  {
    var ip := HostOf(e.node.gossip);
    if e.node.pubkey == cfg.activePubkey then
      var verdict := Judge(s.cache, e.node.pubkey, e.probe);
      var judged := s.(cache := verdict.cache, delinquent := s.delinquent || verdict.delinquent);
      if !verdict.voting then judged
      else if Declared(cfg, ip) then Register(cfg, missing, judged, e.node, true)
      else judged.(undeclared := PeerState(UNDECLARED_PEER_NAME, ip, e.node.pubkey, true, false), leaderless := false)
    else if Declared(cfg, ip) then Register(cfg, missing, s, e.node, false)
    else s
  }

  ghost function ScanUpTo(cfg: Config, missing: set<string>, cache: map<string, string>, es: seq<Entry>, n: nat): Scan
    requires n <= |es|
  {
    if n == 0 then Scan(map[], NO_PEER, true, false, cache)
    else Absorb(cfg, missing, ScanUpTo(cfg, missing, cache, es, n - 1), es[n - 1])
  }

  ghost function MissingIPs(cfg: Config, peers: map<string, PeerState>): set<string>
  {
    set name | name in cfg.peers && name !in peers :: cfg.peers[name]
  }

  /** One refresh.  A failed node list forgets the peers but leaves the leaderless count alone. */
  ghost function Refreshed(cfg: Config, v: View, answer: Answer<seq<Entry>>): View
  {
    match answer
    case Failed => v.(peers := map[], undeclared := NO_PEER, delinquent := false, rpcError := true)
    case Ok(es) =>
      var s := ScanUpTo(cfg, v.missing, v.cache, es, |es|);
      View(s.peers, MissingIPs(cfg, s.peers), if s.leaderless then v.count + 1 else 0, false,
           s.undeclared, s.delinquent, s.cache)
  }

  // ---------------------------------------------------------------- queries on a view

  ghost function IPs(peers: map<string, PeerState>): set<string>
  {
    set name | name in peers :: peers[name].ip
  }

  ghost predicate HasActivePeer(v: View)
  {
    exists name :: name in v.peers && v.peers[name].lastSeenActive
  }

  ghost predicate HasIP(v: View, ip: string)
  {
    exists name :: name in v.peers && v.peers[name].ip == ip
  }

  ghost predicate HasPeers(v: View, ip: string)
  {
    exists name :: name in v.peers && v.peers[name].ip != ip
  }

  /** The rank of every recorded IP: how many recorded IPs come before it as strings. */
  ghost function IPRanks(v: View): map<string, nat>
  {
    map ip | ip in IPs(v.peers) :: RankOf(IPs(v.peers), StrLess, ip)
  }

  predicate HasUndeclared(v: View)
  {
    v.undeclared.ip != ""
  }

  /** The mutable gossip state of the program. */
  class State {
    const cfg: Config
    var peerStatesByName: map<string, PeerState>
    var missingGossipIPs: seq<string>
    var leaderlessSamplesCount: nat
    var lastRefreshHadRPCError: bool
    var configUndeclaredActivePeer: PeerState
    var activePeerDelinquent: bool
    var votePubkeyCache: map<string, string>

    ghost predicate Valid()
      reads this
    {
      UniqueIPs(cfg.peers) && WellFormed(cfg, peerStatesByName)
    }

    /** The abstract value of this object.  The missing IPs are gathered in no particular order. */
    ghost function Now(): View
      reads this
    {
      View(peerStatesByName, Elements(missingGossipIPs), leaderlessSamplesCount, lastRefreshHadRPCError,
           configUndeclaredActivePeer, activePeerDelinquent, votePubkeyCache)
    }

    constructor (cfg: Config)
      requires UniqueIPs(cfg.peers)
      ensures this.cfg == cfg && Valid() && Now() == INITIAL_VIEW
    {
      this.cfg := cfg;
      peerStatesByName, missingGossipIPs, leaderlessSamplesCount := map[], [], 0;
      lastRefreshHadRPCError, configUndeclaredActivePeer, activePeerDelinquent := false, NO_PEER, false;
      votePubkeyCache := map[];
    }

    method PeerNameFromIP(ip: string) returns (name: string, ok: bool)
      requires UniqueIPs(cfg.peers)
      ensures ok <==> Declared(cfg, ip)
      ensures ok ==> name == NameAt(cfg, ip)
    {
      var rest := cfg.peers.Keys;
      while rest != {}
        invariant rest <= cfg.peers.Keys
        invariant forall n :: n in cfg.peers && n !in rest ==> cfg.peers[n] != ip
      {
        var n :| n in rest;
        if cfg.peers[n] == ip {
          return n, true;
        }
        rest := rest - {n};
      }
      return "", false;
    }

    method IsConfigDeclaredPeerWithIP(ip: string) returns (declared: bool)
      ensures declared <==> Declared(cfg, ip)
    {
      var rest := cfg.peers.Keys;
      while rest != {}
        invariant rest <= cfg.peers.Keys
        invariant forall n :: n in cfg.peers && n !in rest ==> cfg.peers[n] != ip
      {
        var n :| n in rest;
        if cfg.peers[n] == ip {
          return true;
        }
        rest := rest - {n};
      }
      return false;
    }

    method CacheVotePubkey(account: VoteAccount)
      modifies this`votePubkeyCache
      ensures votePubkeyCache == old(votePubkeyCache)[account.nodePubkey := account.votePubkey]
    {
      if account.nodePubkey in votePubkeyCache && votePubkeyCache[account.nodePubkey] == account.votePubkey {
        return;
      }
      votePubkeyCache := votePubkeyCache[account.nodePubkey := account.votePubkey];
    }

    method LookUp(accounts: seq<VoteAccount>, pubkey: string) returns (found: Option<VoteAccount>)
      ensures found == FindAccount(accounts, pubkey)
    {
      for i := 0 to |accounts|
        invariant FindAccount(accounts, pubkey) == FindAccount(accounts[i..], pubkey)
      {
        if accounts[i].nodePubkey == pubkey {
          return Some(accounts[i]);
        }
        assert accounts[i..][1..] == accounts[i + 1..];
      }
      return None;
    }

    /** Judges an entry that carries the active key, asking the filtered table first when it can. */
    method IsNodeActiveAndVoting(e: Entry) returns (voting: bool)
      modifies this`votePubkeyCache, this`activePeerDelinquent
      ensures var verdict := Judge(old(votePubkeyCache), e.node.pubkey, e.probe);
              && voting == verdict.voting
              && votePubkeyCache == verdict.cache
              && activePeerDelinquent == (old(activePeerDelinquent) || verdict.delinquent)
    {
      var pubkey := e.node.pubkey;
      var voteAccounts: Option<VoteTable> := None;
      if pubkey in votePubkeyCache {
        var result := e.probe.votes(Some(votePubkeyCache[pubkey]));
        if result.Failed? {
          return true;
        }
        if |result.value.current| == 0 && |result.value.delinquent| == 0 {
          assert result == Ok(VoteTable([], []));
          votePubkeyCache := votePubkeyCache - {pubkey};
        } else {
          voteAccounts := Some(result.value);
        }
      }
      if voteAccounts.None? {
        var result := e.probe.votes(None);
        if result.Failed? {
          return true;
        }
        voteAccounts := Some(result.value);
      }
      assert Consult(old(votePubkeyCache), pubkey, e.probe) == (Ok(voteAccounts.value), votePubkeyCache);

      var delinquent := LookUp(voteAccounts.value.delinquent, pubkey);
      if delinquent.Some? {
        FoundIsOwn(voteAccounts.value.delinquent, pubkey);
        CacheVotePubkey(delinquent.value);
        if e.probe.balance.Failed? || e.probe.balance.value <= RENT_EXEMPT_MINIMUM {
          return true;
        }
        activePeerDelinquent := true;
        return false;
      }
      var current := LookUp(voteAccounts.value.current, pubkey);
      if current.None? {
        return false;
      }
      FoundIsOwn(voteAccounts.value.current, pubkey);
      CacheVotePubkey(current.value);
      return true;
    }

    /** Refreshes the whole state from one answer of getClusterNodes. */
    method Refresh(answer: Answer<seq<Entry>>)
      requires Valid()
      modifies this
      ensures Valid()
      ensures Now() == Refreshed(cfg, old(Now()), answer)
    {
      var latest: map<string, PeerState> := map[];
      configUndeclaredActivePeer := NO_PEER;
      activePeerDelinquent := false;
      if answer.Failed? {
        lastRefreshHadRPCError := true;
        peerStatesByName := latest;
        return;
      }
      lastRefreshHadRPCError := false;
      var nodes := answer.value;
      var isLeaderlessSample := true;
      ghost var missing := Elements(missingGossipIPs);
      for i := 0 to |nodes|
        invariant WellFormed(cfg, latest) && UniqueIPs(cfg.peers)
        invariant !lastRefreshHadRPCError && missingGossipIPs == old(missingGossipIPs)
        invariant leaderlessSamplesCount == old(leaderlessSamplesCount)
        invariant Scan(latest, configUndeclaredActivePeer, isLeaderlessSample, activePeerDelinquent, votePubkeyCache)
               == ScanUpTo(cfg, missing, old(votePubkeyCache), nodes, i)
      {
        var e := nodes[i];
        var nodeIP := HostOf(e.node.gossip);
        var isActiveNode := e.node.pubkey == cfg.activePubkey;
        var declared := IsConfigDeclaredPeerWithIP(nodeIP);
        if !declared {
          if isActiveNode {
            var voting := IsNodeActiveAndVoting(e);
            if !voting {
              continue;
            }
            isLeaderlessSample := false;
            configUndeclaredActivePeer := PeerState(UNDECLARED_PEER_NAME, nodeIP, e.node.pubkey, true, false);
          }
          continue;
        }
        var peerName, ok := PeerNameFromIP(nodeIP);
        if isActiveNode {
          var voting := IsNodeActiveAndVoting(e);
          if !voting {
            continue;
          }
        }
        var peerState := PeerState(peerName, nodeIP, e.node.pubkey, isActiveNode, nodeIP in missingGossipIPs);
        if peerName in latest && latest[peerName].lastSeenActive {
          continue;
        }
        latest := latest[peerName := peerState];
        if peerState.lastSeenActive {
          isLeaderlessSample := false;
        }
      }

      var latestMissing := CollectMissing(latest);
      if isLeaderlessSample {
        leaderlessSamplesCount := leaderlessSamplesCount + 1;
      } else {
        leaderlessSamplesCount := 0;
      }
      missingGossipIPs := latestMissing;
      peerStatesByName := latest;
    }

    method CollectMissing(latest: map<string, PeerState>) returns (missing: seq<string>)
      ensures Elements(missing) == MissingIPs(cfg, latest)
    {
      missing := [];
      var rest := cfg.peers.Keys;
      while rest != {}
        invariant rest <= cfg.peers.Keys
        invariant forall n :: n in cfg.peers && n !in rest && n !in latest ==> cfg.peers[n] in missing
        invariant forall ip :: ip in missing ==> ip in MissingIPs(cfg, latest)
      {
        var n :| n in rest;
        if n !in latest {
          missing := missing + [cfg.peers[n]];
        }
        rest := rest - {n};
      }
    }

    // -------------------------------------------------------------- queries

    method SeesIP(ip: string) returns (found: bool)
      ensures found <==> HasIP(Now(), ip)
    {
      var rest := peerStatesByName.Keys;
      while rest != {}
        invariant rest <= peerStatesByName.Keys
        invariant forall n :: n in peerStatesByName && n !in rest ==> peerStatesByName[n].ip != ip
      {
        var n :| n in rest;
        if peerStatesByName[n].ip == ip {
          return true;
        }
        rest := rest - {n};
      }
      return false;
    }

    method SeesPeersOtherThan(ip: string) returns (found: bool)
      ensures found <==> HasPeers(Now(), ip)
    {
      var rest := peerStatesByName.Keys;
      while rest != {}
        invariant rest <= peerStatesByName.Keys
        invariant forall n :: n in peerStatesByName && n !in rest ==> peerStatesByName[n].ip == ip
      {
        var n :| n in rest;
        if peerStatesByName[n].ip != ip {
          return true;
        }
        rest := rest - {n};
      }
      return false;
    }

    /** The active peer, if one is recorded.  With several, any of them may be returned. */
    method GetActivePeer() returns (peer: Option<PeerState>)
      ensures peer.Some? <==> HasActivePeer(Now())
      ensures peer.Some? ==> peer.value in peerStatesByName.Values && peer.value.lastSeenActive
    {
      var rest := peerStatesByName.Keys;
      while rest != {}
        invariant rest <= peerStatesByName.Keys
        invariant forall n :: n in peerStatesByName && n !in rest ==> !peerStatesByName[n].lastSeenActive
      {
        var n :| n in rest;
        if peerStatesByName[n].lastSeenActive {
          assert n in peerStatesByName.Keys;
          return Some(peerStatesByName[n]);
        }
        rest := rest - {n};
      }
      return None;
    }

    /** The recorded IPs in ascending string order. */
    method GetSortedIPs() returns (ips: seq<string>)
      requires Valid()
      ensures Sorted(StrLess, ips) && Distinct(ips)
      ensures Elements(ips) == IPs(peerStatesByName)
    {
      var unsorted: seq<string> := [];
      var rest := peerStatesByName.Keys;
      while rest != {}
        invariant rest <= peerStatesByName.Keys
        invariant Distinct(unsorted)
        invariant forall n :: n in peerStatesByName && n !in rest ==> peerStatesByName[n].ip in unsorted
        invariant forall ip :: ip in unsorted ==>
                    exists n :: n in peerStatesByName && n !in rest && peerStatesByName[n].ip == ip
      {
        var n :| n in rest;
        assert peerStatesByName[n].ip !in unsorted by {
          assert forall m :: m in peerStatesByName && peerStatesByName[m].ip == peerStatesByName[n].ip ==>
                    cfg.peers[m] == cfg.peers[n];
        }
        unsorted := unsorted + [peerStatesByName[n].ip];
        rest := rest - {n};
      }
      StrLessIsTotal();
      ips := Sort(unsorted, StrLess);
      SameElements(ips, unsorted);
    }

    /** Position in the sorted list of IPs, which is the number of recorded IPs below. */
    method PeerIPRankMap() returns (ranks: map<string, nat>)
      requires Valid()
      ensures ranks == IPRanks(Now())
    {
      var ips := GetSortedIPs();
      ranks := map[];
      for i := 0 to |ips|
        invariant ranks.Keys == Elements(ips[..i])
        invariant forall k :: 0 <= k < i ==> ranks[ips[k]] == k
      {
        assert ips[..i + 1] == ips[..i] + [ips[i]];
        ranks := ranks[ips[i] := i];
      }
      assert ips[..|ips|] == ips;
      SortedPositionsAreRanks(ips, ranks);
    }
  }

  /** Positions in the sorted list of different strings are their ranks. */
  lemma SortedPositionsAreRanks(ips: seq<string>, ranks: map<string, nat>)
    requires Sorted(StrLess, ips) && Distinct(ips)
    requires ranks.Keys == Elements(ips)
    requires forall k :: 0 <= k < |ips| ==> ranks[ips[k]] == k
    ensures RanksInOrder(ranks, Elements(ips), StrLess)
    ensures ranks == map ip | ip in Elements(ips) :: RankOf(Elements(ips), StrLess, ip)
  {
    StrLessIsTotal();
    assert NoTies(StrLess, Elements(ips));
    PositionsRankInOrder(StrLess, ips, ranks);
  }

  /**
   The takeover order by IP: of two recorded IPs the one has the lower rank exactly if, at the
   first position at which they differ, it has ended or has the smaller character.
   */
  lemma LowerRankExactly(v: View, a: string, b: string)
    requires a in IPs(v.peers) && b in IPs(v.peers)
    ensures IPRanks(v)[a] < IPRanks(v)[b] <==> exists k: nat :: FirstAt(a, b, k)
  {
    StrLessIsTotal();
    var recorded := IPs(v.peers);
    assert NoTies(StrLess, recorded);
    RanksExist(recorded, StrLess);
    StrLessMeaning(a, b);
  }

  lemma {:induction false} FoundIsOwn(accounts: seq<VoteAccount>, pubkey: string)
    requires FindAccount(accounts, pubkey).Some?
    ensures FindAccount(accounts, pubkey).value in accounts
    ensures FindAccount(accounts, pubkey).value.nodePubkey == pubkey
  {
    if accounts[0].nodePubkey != pubkey {
      FoundIsOwn(accounts[1..], pubkey);
    }
  }
}
