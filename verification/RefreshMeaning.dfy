/**
 What a refresh means, told without its loop.  Each entry of the node list is read once:
 does it show the active key in voting order, does it raise the delinquency flag?  The
 roles, the leaderless verdict and the missing IPs then depend on the set of these
 readings only, not on their order or repetition.
 */
module RefreshMeaning {
  import opened Answers
  import opened Gossip

  /** One entry and its verdict; both flags are down when the entry does not carry the active key. */
  datatype Reading = Reading(node: Node, leads: bool, flags: bool)

  /** The vote key cache by the time entry `n` is reached. */
  ghost function CacheUpTo(cfg: Config, cache: map<string, string>, es: seq<Entry>, n: nat): map<string, string>
    requires n <= |es|
  {
    if n == 0 then cache
    else
      var before := CacheUpTo(cfg, cache, es, n - 1);
      var e := es[n - 1];
      if e.node.pubkey == cfg.activePubkey then Judge(before, e.node.pubkey, e.probe).cache else before
  }

  ghost function ReadingAt(cfg: Config, cache: map<string, string>, es: seq<Entry>, k: nat): Reading
    requires k < |es|
  {
    var e := es[k];
    if e.node.pubkey == cfg.activePubkey then
      var verdict := Judge(CacheUpTo(cfg, cache, es, k), e.node.pubkey, e.probe);
      Reading(e.node, verdict.voting, verdict.delinquent)
    else
      Reading(e.node, false, false)
  }

  ghost function ReadingsUpTo(cfg: Config, cache: map<string, string>, es: seq<Entry>, n: nat): set<Reading>
    requires n <= |es|
  {
    if n == 0 then {} else ReadingsUpTo(cfg, cache, es, n - 1) + {ReadingAt(cfg, cache, es, n - 1)}
  }

  ghost function Readings(cfg: Config, cache: map<string, string>, es: seq<Entry>): set<Reading>
  {
    ReadingsUpTo(cfg, cache, es, |es|)
  }

  // ---------------------------------------------------------------- roles told by a set of readings

  /** Somebody at `ip` is in gossip and, if under the active key, is voting. */
  ghost predicate PresentIn(cfg: Config, rs: set<Reading>, ip: string)
  {
    exists r :: r in rs && HostOf(r.node.gossip) == ip && (r.node.pubkey == cfg.activePubkey ==> r.leads)
  }

  /** Somebody at `ip` votes under the active key. */
  ghost predicate ActiveIn(rs: set<Reading>, ip: string)
  {
    exists r :: r in rs && HostOf(r.node.gossip) == ip && r.leads
  }

  /** Somebody, declared or not, votes under the active key. */
  ghost predicate LedIn(rs: set<Reading>)
  {
    exists r :: r in rs && r.leads
  }

  /** Somebody outside the declared peers votes under the active key. */
  ghost predicate LedFromOutside(cfg: Config, rs: set<Reading>)
  {
    exists r :: r in rs && r.leads && !Declared(cfg, HostOf(r.node.gossip))
  }

  ghost predicate FlaggedIn(rs: set<Reading>)
  {
    exists r :: r in rs && r.flags
  }

  /** `peers` shows the declared peer `n` as the readings say. */
  ghost predicate RoleAsRead(cfg: Config, rs: set<Reading>, peers: map<string, PeerState>, n: string)
    requires n in cfg.peers
  {
    && (n in peers <==> PresentIn(cfg, rs, cfg.peers[n]))
    && (n in peers ==> (peers[n].lastSeenActive <==> ActiveIn(rs, cfg.peers[n])))
  }

  /** `peers` assigns presence and role to every declared peer as the readings say. */
  ghost predicate RolesAsRead(cfg: Config, rs: set<Reading>, peers: map<string, PeerState>)
  {
    WellFormed(cfg, peers) && forall name :: name in cfg.peers ==> RoleAsRead(cfg, rs, peers, name)
  }

  /** How one more reading changes what a set of readings says about one IP, and about leadership. */
  lemma OneMoreReading(cfg: Config, rs: set<Reading>, r: Reading, ip: string)
    ensures PresentIn(cfg, rs + {r}, ip)
       <==> PresentIn(cfg, rs, ip) || (HostOf(r.node.gossip) == ip && (r.node.pubkey == cfg.activePubkey ==> r.leads))
    ensures ActiveIn(rs + {r}, ip) <==> ActiveIn(rs, ip) || (HostOf(r.node.gossip) == ip && r.leads)
  {
    var more := rs + {r};
    assert r in more;
    if PresentIn(cfg, rs, ip) {
      var q :| q in rs && HostOf(q.node.gossip) == ip && (q.node.pubkey == cfg.activePubkey ==> q.leads);
      assert q in more;
    }
    if ActiveIn(rs, ip) {
      var q :| q in rs && HostOf(q.node.gossip) == ip && q.leads;
      assert q in more;
    }
  }

  lemma OneMoreVerdict(cfg: Config, rs: set<Reading>, r: Reading)
    ensures LedIn(rs + {r}) <==> LedIn(rs) || r.leads
    ensures FlaggedIn(rs + {r}) <==> FlaggedIn(rs) || r.flags
    ensures LedFromOutside(cfg, rs + {r})
       <==> LedFromOutside(cfg, rs) || (r.leads && !Declared(cfg, HostOf(r.node.gossip)))
  {
    var more := rs + {r};
    assert r in more;
    assert forall q :: q in rs ==> q in more;
  }

  lemma RegisterKeepsRole(cfg: Config, missing: set<string>, s: Scan, rs: set<Reading>, r: Reading, n: string)
    requires UniqueIPs(cfg.peers) && Declared(cfg, HostOf(r.node.gossip)) && n in cfg.peers
    requires RoleAsRead(cfg, rs, s.peers, n)
    requires r.leads <==> r.node.pubkey == cfg.activePubkey
    ensures RoleAsRead(cfg, rs + {r}, Register(cfg, missing, s, r.node, r.leads).peers, n)
  {
    OneMoreReading(cfg, rs, r, cfg.peers[n]);
    if n != NameAt(cfg, HostOf(r.node.gossip)) {
      assert cfg.peers[n] != HostOf(r.node.gossip);
    }
  }

  lemma RegisterKeepsRoles(cfg: Config, missing: set<string>, s: Scan, rs: set<Reading>, r: Reading)
    requires UniqueIPs(cfg.peers) && Declared(cfg, HostOf(r.node.gossip))
    requires RolesAsRead(cfg, rs, s.peers)
    requires r.leads <==> r.node.pubkey == cfg.activePubkey
    ensures RolesAsRead(cfg, rs + {r}, Register(cfg, missing, s, r.node, r.leads).peers)
  {
    forall n | n in cfg.peers
      ensures RoleAsRead(cfg, rs + {r}, Register(cfg, missing, s, r.node, r.leads).peers, n)
    {
      assert RoleAsRead(cfg, rs, s.peers, n);
      RegisterKeepsRole(cfg, missing, s, rs, r, n);
    }
  }

  lemma ActivePeerMeansLed(cfg: Config, rs: set<Reading>, peers: map<string, PeerState>, name: string)
    requires RolesAsRead(cfg, rs, peers) && name in peers && peers[name].lastSeenActive
    ensures LedIn(rs)
  {
    assert ActiveIn(rs, cfg.peers[name]);
  }

  lemma IgnoredKeepsRoles(cfg: Config, peers: map<string, PeerState>, rs: set<Reading>, r: Reading)
    requires RolesAsRead(cfg, rs, peers)
    requires !Declared(cfg, HostOf(r.node.gossip)) || (r.node.pubkey == cfg.activePubkey && !r.leads)
    ensures RolesAsRead(cfg, rs + {r}, peers)
  {
    forall n | n in cfg.peers
      ensures PresentIn(cfg, rs + {r}, cfg.peers[n]) <==> PresentIn(cfg, rs, cfg.peers[n])
      ensures ActiveIn(rs + {r}, cfg.peers[n]) <==> ActiveIn(rs, cfg.peers[n])
    {
      OneMoreReading(cfg, rs, r, cfg.peers[n]);
    }
  }

  /** What the scan and the readings so far have in common. */
  ghost predicate Tells(cfg: Config, s: Scan, rs: set<Reading>)
  {
    && RolesAsRead(cfg, rs, s.peers)
    && s.leaderless == !LedIn(rs)
    && s.delinquent == FlaggedIn(rs)
    && s.undeclared.lastSeenActive == LedFromOutside(cfg, rs)
    && (!s.undeclared.lastSeenActive ==> s.undeclared == NO_PEER)
  }

  lemma AbsorbTells(cfg: Config, missing: set<string>, s: Scan, rs: set<Reading>, e: Entry, r: Reading)
    requires UniqueIPs(cfg.peers) && Tells(cfg, s, rs)
    requires r == if e.node.pubkey == cfg.activePubkey
                  then var j := Judge(s.cache, e.node.pubkey, e.probe); Reading(e.node, j.voting, j.delinquent)
                  else Reading(e.node, false, false)
    ensures Tells(cfg, Absorb(cfg, missing, s, e), rs + {r})
  {
    OneMoreVerdict(cfg, rs, r);
    if Declared(cfg, HostOf(e.node.gossip)) && (e.node.pubkey == cfg.activePubkey ==> r.leads) {
      RegisterKeepsRoles(cfg, missing, s, rs, r);
      var name := NameAt(cfg, HostOf(e.node.gossip));
      if name in s.peers && s.peers[name].lastSeenActive {
        ActivePeerMeansLed(cfg, rs, s.peers, name);
      }
    } else {
      IgnoredKeepsRoles(cfg, s.peers, rs, r);
    }
  }

  lemma {:induction false} ScanCache(cfg: Config, missing: set<string>, cache: map<string, string>, es: seq<Entry>, n: nat)
    requires n <= |es|
    ensures ScanUpTo(cfg, missing, cache, es, n).cache == CacheUpTo(cfg, cache, es, n)
  {
    if n == 0 {
    } else {
      ScanCache(cfg, missing, cache, es, n - 1);
    }
  }

  /** The loop of a refresh, up to entry `n`, has gathered what the first `n` readings say. */
  lemma {:induction false} ScanMeaning(cfg: Config, missing: set<string>, cache: map<string, string>, es: seq<Entry>, n: nat)
    requires UniqueIPs(cfg.peers) && n <= |es|
    ensures Tells(cfg, ScanUpTo(cfg, missing, cache, es, n), ReadingsUpTo(cfg, cache, es, n))
  {
    if n == 0 {
    } else {
      ScanMeaning(cfg, missing, cache, es, n - 1);
      ScanCache(cfg, missing, cache, es, n - 1);
      AbsorbTells(cfg, missing, ScanUpTo(cfg, missing, cache, es, n - 1), ReadingsUpTo(cfg, cache, es, n - 1),
                  es[n - 1], ReadingAt(cfg, cache, es, n - 1));
    }
  }

  /**
   The refinement: after a successful refresh a declared peer is recorded exactly when
   somebody at its IP is in gossip and, under the active key, voting; it is recorded as
   active exactly when somebody there votes under the active key; the missing IPs are the
   rest; the count is reset exactly when anybody at all votes under the active key.
   */
  lemma RefreshRefinesReadings(cfg: Config, v: View, es: seq<Entry>)
    requires UniqueIPs(cfg.peers)
    ensures var w, rs := Refreshed(cfg, v, Ok(es)), Readings(cfg, v.cache, es);
            && RolesAsRead(cfg, rs, w.peers)
            && (forall ip :: ip in w.missing <==> Declared(cfg, ip) && !PresentIn(cfg, rs, ip))
            && w.count == (if LedIn(rs) then 0 else v.count + 1)
            && w.delinquent == FlaggedIn(rs)
            && w.undeclared.lastSeenActive == LedFromOutside(cfg, rs)
            && (!w.undeclared.lastSeenActive ==> w.undeclared == NO_PEER)
            && !w.rpcError
            && w.cache == CacheUpTo(cfg, v.cache, es, |es|)
  {
    ScanMeaning(cfg, v.missing, v.cache, es, |es|);
    ScanCache(cfg, v.missing, v.cache, es, |es|);
  }

  /** Entry `k` is one that would be recorded as `p`. */
  ghost predicate ShownBy(cfg: Config, missing: set<string>, es: seq<Entry>, n: nat, p: PeerState, k: nat)
    requires n <= |es|
  {
    && k < n && HostOf(es[k].node.gossip) == p.ip && es[k].node.pubkey == p.pubkey
    && (p.lastSeenActive <==> p.pubkey == cfg.activePubkey) && (p.isRecentlyInGossip <==> p.ip in missing)
    && (!p.lastSeenActive ==>
          forall j :: k < j < n && HostOf(es[j].node.gossip) == p.ip ==> es[j].node.pubkey == cfg.activePubkey)
  }

  /**
   A refresh that fails forgets everything it had seen, but takes nothing back: the count, the
   missing IPs and the cached keys stay for the next one.
   */
  lemma FailureTakesNothingBack(cfg: Config, v: View)
    ensures var w := Refreshed(cfg, v, Failed);
            && (forall ip :: !HasIP(w, ip)) && !HasActivePeer(w) && !HasUndeclared(w) && !w.delinquent && w.rpcError
            && w.count == v.count && w.missing == v.missing && w.cache == v.cache
  {
  }

  /** The record of one declared peer is left alone, or replaced by what this entry shows. */
  ghost predicate LeftOrReplaced(
    cfg: Config, missing: set<string>, before: map<string, PeerState>, after: map<string, PeerState>, node: Node, name: string)
  {
    name in after ==>
      || (&& name in before && after[name] == before[name] && name in cfg.peers
          && (HostOf(node.gossip) != cfg.peers[name] || node.pubkey == cfg.activePubkey || before[name].lastSeenActive))
      || after[name] == PeerState(name, HostOf(node.gossip), node.pubkey,
                                  node.pubkey == cfg.activePubkey, HostOf(node.gossip) in missing)
  }

  lemma RegisterAt(cfg: Config, missing: set<string>, s: Scan, node: Node, name: string)
    requires UniqueIPs(cfg.peers) && WellFormed(cfg, s.peers) && Declared(cfg, HostOf(node.gossip))
    ensures var after := Register(cfg, missing, s, node, node.pubkey == cfg.activePubkey).peers;
            WellFormed(cfg, after) && LeftOrReplaced(cfg, missing, s.peers, after, node, name)
  {
    var ip := HostOf(node.gossip);
    hide HostOf;
    assert name in cfg.peers && cfg.peers[name] == ip ==> name == NameAt(cfg, ip);
  }

  lemma AbsorbAt(cfg: Config, missing: set<string>, s: Scan, e: Entry, name: string)
    requires UniqueIPs(cfg.peers) && WellFormed(cfg, s.peers)
    ensures var after := Absorb(cfg, missing, s, e).peers;
            WellFormed(cfg, after) && LeftOrReplaced(cfg, missing, s.peers, after, e.node, name)
  {
    hide Judge, Register, HostOf, UniqueIPs;
    var ip := HostOf(e.node.gossip);
    if Declared(cfg, ip) {
      var verdict := Judge(s.cache, e.node.pubkey, e.probe);
      RegisterAt(cfg, missing, s, e.node, name);
      RegisterAt(cfg, missing, s.(cache := verdict.cache, delinquent := s.delinquent || verdict.delinquent), e.node, name);
    } else if name in s.peers {
      assert cfg.peers[name] != ip;
    }
  }

  /**
   Whoever is recorded is shown by an entry: same IP and key, active exactly if that is the
   active key, and recent exactly if the IP was missing before.  Of several entries with
   other keys the last one is recorded.
   */
  lemma {:induction false} RecordedPeerIsShown(
    cfg: Config, missing: set<string>, cache: map<string, string>, es: seq<Entry>, n: nat, name: string)
    requires UniqueIPs(cfg.peers) && n <= |es|
    ensures WellFormed(cfg, ScanUpTo(cfg, missing, cache, es, n).peers)
    ensures name in ScanUpTo(cfg, missing, cache, es, n).peers ==>
              exists k: nat :: ShownBy(cfg, missing, es, n, ScanUpTo(cfg, missing, cache, es, n).peers[name], k)
  {
    hide Absorb;
    if n == 0 {
    } else {
      var p := n - 1;
      var before, after := ScanUpTo(cfg, missing, cache, es, p), ScanUpTo(cfg, missing, cache, es, n);
      RecordedPeerIsShown(cfg, missing, cache, es, p, name);
      AbsorbAt(cfg, missing, before, es[p], name);
      if name in after.peers {
        if name in before.peers && after.peers[name] == before.peers[name]
           && (HostOf(es[p].node.gossip) != cfg.peers[name] || es[p].node.pubkey == cfg.activePubkey || before.peers[name].lastSeenActive) {
          var k: nat :| ShownBy(cfg, missing, es, p, before.peers[name], k);
          assert ShownBy(cfg, missing, es, n, after.peers[name], k);
        } else {
          assert ShownBy(cfg, missing, es, n, after.peers[name], p);
        }
      }
    }
  }

  /**
   Order independence: two node lists with the same readings give every peer the same
   role, the same missing IPs, the same leaderless verdict and delinquency flag, and tell
   alike whether anybody leads from outside.  Which outsider is recorded depends on the order.
   */
  lemma OrderDoesNotMatter(cfg: Config, v: View, es: seq<Entry>, fs: seq<Entry>)
    requires UniqueIPs(cfg.peers)
    requires Readings(cfg, v.cache, es) == Readings(cfg, v.cache, fs)
    ensures var a, b := Refreshed(cfg, v, Ok(es)), Refreshed(cfg, v, Ok(fs));
            && a.peers.Keys == b.peers.Keys
            && (forall n :: n in a.peers ==> a.peers[n].lastSeenActive == b.peers[n].lastSeenActive)
            && a.missing == b.missing
            && a.count == b.count
            && a.delinquent == b.delinquent
            && a.undeclared.lastSeenActive == b.undeclared.lastSeenActive
  {
    RefreshRefinesReadings(cfg, v, es);
    RefreshRefinesReadings(cfg, v, fs);
  }

  // ---------------------------------------------------------------- what the count says about what is visible

  lemma ActiveMeansLed(cfg: Config, v: View, es: seq<Entry>)
    requires UniqueIPs(cfg.peers)
    ensures var w, rs := Refreshed(cfg, v, Ok(es)), Readings(cfg, v.cache, es);
            LedIn(rs) <==> HasActivePeer(w) || LedFromOutside(cfg, rs)
  {
    RefreshRefinesReadings(cfg, v, es);
    var w, rs := Refreshed(cfg, v, Ok(es)), Readings(cfg, v.cache, es);
    ReadingsLeadUnderActiveKey(cfg, v.cache, es, |es|);
    if r :| r in rs && r.leads && Declared(cfg, HostOf(r.node.gossip)) {
      var name := NameAt(cfg, HostOf(r.node.gossip));
      assert PresentIn(cfg, rs, cfg.peers[name]) && ActiveIn(rs, cfg.peers[name]);
      assert w.peers[name].lastSeenActive;
    }
    if name :| name in w.peers && w.peers[name].lastSeenActive {
      assert ActiveIn(rs, cfg.peers[name]);
    }
  }

  lemma {:induction false} ReadingsLeadUnderActiveKey(cfg: Config, cache: map<string, string>, es: seq<Entry>, n: nat)
    requires n <= |es|
    ensures forall r :: r in ReadingsUpTo(cfg, cache, es, n) && (r.leads || r.flags) ==> r.node.pubkey == cfg.activePubkey
    ensures forall r :: r in ReadingsUpTo(cfg, cache, es, n) ==> !(r.leads && r.flags)
  {
    if n == 0 {
    } else {
      ReadingsLeadUnderActiveKey(cfg, cache, es, n - 1);
    }
  }

  /** Entry `k` shows a voting holder of the active key outside the declared peers, and none does after it. */
  ghost predicate LastOutsideLeader(cfg: Config, cache: map<string, string>, es: seq<Entry>, n: nat, k: nat)
    requires n <= |es|
  {
    && k < n
    && ReadingAt(cfg, cache, es, k).leads && !Declared(cfg, HostOf(es[k].node.gossip))
    && forall j :: k < j < n && ReadingAt(cfg, cache, es, j).leads ==> Declared(cfg, HostOf(es[j].node.gossip))
  }

  lemma {:induction false} LastOutsideLeaderIsRecorded(
    cfg: Config, missing: set<string>, cache: map<string, string>, es: seq<Entry>, n: nat, k: nat)
    requires UniqueIPs(cfg.peers) && n <= |es|
    requires LastOutsideLeader(cfg, cache, es, n, k)
    ensures ScanUpTo(cfg, missing, cache, es, n).undeclared
         == PeerState("config-undeclared-active-peer", HostOf(es[k].node.gossip), cfg.activePubkey, true, false)
  {
    ScanCache(cfg, missing, cache, es, n - 1);
    if k < n - 1 {
      LastOutsideLeaderIsRecorded(cfg, missing, cache, es, n - 1, k);
      assert ReadingAt(cfg, cache, es, n - 1).leads ==> Declared(cfg, HostOf(es[n - 1].node.gossip));
    }
  }

  lemma {:induction false} LastOutsideLeaderExists(cfg: Config, cache: map<string, string>, es: seq<Entry>, n: nat) returns (k: nat)
    requires n <= |es| && LedFromOutside(cfg, ReadingsUpTo(cfg, cache, es, n))
    ensures LastOutsideLeader(cfg, cache, es, n, k)
  {
    var r := ReadingAt(cfg, cache, es, n - 1);
    if r.leads && !Declared(cfg, HostOf(r.node.gossip)) {
      k := n - 1;
    } else {
      k := LastOutsideLeaderExists(cfg, cache, es, n - 1);
    }
  }

  /** From any outside leader on there is a last one. */
  lemma {:induction false} LastOutsideLeaderAfter(cfg: Config, cache: map<string, string>, es: seq<Entry>, n: nat, i: nat) returns (k: nat)
    requires i < n <= |es| && ReadingAt(cfg, cache, es, i).leads && !Declared(cfg, HostOf(es[i].node.gossip))
    ensures LastOutsideLeader(cfg, cache, es, n, k)
  {
    var r := ReadingAt(cfg, cache, es, n - 1);
    if r.leads && !Declared(cfg, HostOf(r.node.gossip)) {
      k := n - 1;
    } else {
      k := LastOutsideLeaderAfter(cfg, cache, es, n - 1, i);
    }
  }

  /**
   The program's flag for an undeclared active peer, exactly: it is up if and only if
   somebody leads from outside and the last such entry has a host.
   */
  lemma UndeclaredFlagExactly(cfg: Config, v: View, es: seq<Entry>)
    requires UniqueIPs(cfg.peers)
    ensures HasUndeclared(Refreshed(cfg, v, Ok(es)))
       <==> exists k: nat :: LastOutsideLeader(cfg, v.cache, es, |es|, k) && HostOf(es[k].node.gossip) != ""
  {
    RefreshRefinesReadings(cfg, v, es);
    var w, rs := Refreshed(cfg, v, Ok(es)), Readings(cfg, v.cache, es);
    forall k: nat | LastOutsideLeader(cfg, v.cache, es, |es|, k)
      ensures w.undeclared.ip == HostOf(es[k].node.gossip)
    {
      LastOutsideLeaderIsRecorded(cfg, v.missing, v.cache, es, |es|, k);
    }
    if LedFromOutside(cfg, rs) {
      var k := LastOutsideLeaderExists(cfg, v.cache, es, |es|);
    }
  }

  /**
   The count and what can be named agree, except in one case.  After a successful refresh
   the count is 0 although neither an active peer nor an undeclared active peer can be
   named, exactly when no declared peer is active and the last undeclared entry voting
   under the active key has an empty host in its gossip address.
   */
  lemma CountZeroButNobodyNamed(cfg: Config, v: View, es: seq<Entry>)
    requires UniqueIPs(cfg.peers)
    ensures var w, rs := Refreshed(cfg, v, Ok(es)), Readings(cfg, v.cache, es);
            (w.count == 0 && !HasActivePeer(w) && !HasUndeclared(w))
            <==>
            ((forall r :: r in rs && r.leads ==> !Declared(cfg, HostOf(r.node.gossip)))
             && exists k: nat :: LastOutsideLeader(cfg, v.cache, es, |es|, k) && HostOf(es[k].node.gossip) == "")
  {
    RefreshRefinesReadings(cfg, v, es);
    ActiveMeansLed(cfg, v, es);
    var w, rs := Refreshed(cfg, v, Ok(es)), Readings(cfg, v.cache, es);
    if LedFromOutside(cfg, rs) {
      var k := LastOutsideLeaderExists(cfg, v.cache, es, |es|);
      LastOutsideLeaderIsRecorded(cfg, v.missing, v.cache, es, |es|, k);
    }
    forall k: nat | LastOutsideLeader(cfg, v.cache, es, |es|, k)
      ensures w.undeclared.ip == HostOf(es[k].node.gossip) && LedFromOutside(cfg, rs)
    {
      LastOutsideLeaderIsRecorded(cfg, v.missing, v.cache, es, |es|, k);
      ReadingIsIn(cfg, v.cache, es, |es|, k);
      assert ReadingAt(cfg, v.cache, es, k) in rs;
    }
    forall r | r in rs && r.leads && Declared(cfg, HostOf(r.node.gossip)) ensures HasActivePeer(w) {
      var name := NameAt(cfg, HostOf(r.node.gossip));
      ReadingsLeadUnderActiveKey(cfg, v.cache, es, |es|);
      assert PresentIn(cfg, rs, cfg.peers[name]) && ActiveIn(rs, cfg.peers[name]);
      assert w.peers[name].lastSeenActive;
    }
    forall name | name in w.peers && w.peers[name].lastSeenActive
      ensures exists r :: r in rs && r.leads && Declared(cfg, HostOf(r.node.gossip))
    {
      assert ActiveIn(rs, cfg.peers[name]);
      var r :| r in rs && HostOf(r.node.gossip) == cfg.peers[name] && r.leads;
    }
  }

  lemma {:induction false} ReadingIsIn(cfg: Config, cache: map<string, string>, es: seq<Entry>, n: nat, k: nat)
    requires k < n <= |es|
    ensures ReadingAt(cfg, cache, es, k) in ReadingsUpTo(cfg, cache, es, n)
  {
    if k < n - 1 {
      ReadingIsIn(cfg, cache, es, n - 1, k);
    }
  }

  /** The case does occur: a leader with gossip address ":8001" resets the count and stays unnamed. */
  lemma NobodyNamedExample()
    ensures var cfg := Config("A", map["us" := "10.0.0.1"]);
            var es := [Entry(Node(":8001", "A"), Probe(_ => Failed, Failed))];
            var w := Refreshed(cfg, INITIAL_VIEW.(count := 2), Ok(es));
            w.count == 0 && !HasActivePeer(w) && !HasUndeclared(w)
  {
    var cfg := Config("A", map["us" := "10.0.0.1"]);
    var es := [Entry(Node(":8001", "A"), Probe(_ => Failed, Failed))];
    var v := INITIAL_VIEW.(count := 2);
    assert HostOf(":8001") == "";
    assert !Declared(cfg, "");
    assert ReadingAt(cfg, v.cache, es, 0).leads;
    assert LastOutsideLeader(cfg, v.cache, es, 1, 0);
    forall r | r in Readings(cfg, v.cache, es) ensures r == ReadingAt(cfg, v.cache, es, 0) {
      assert ReadingsUpTo(cfg, v.cache, es, 1) == ReadingsUpTo(cfg, v.cache, es, 0) + {ReadingAt(cfg, v.cache, es, 0)};
    }
    CountZeroButNobodyNamed(cfg, v, es);
  }
}
