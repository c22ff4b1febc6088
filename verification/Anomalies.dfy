/**
 Where a refresh depends on more than one would like, and exactly when: the flag for an
 undeclared active peer on the order of the node list, the delinquency flag on answers that
 change within one refresh, and the count on a cached key that has moved to another identity.
 */
module Anomalies {
  import opened Answers
  import opened Gossip
  import opened RefreshMeaning
  import opened VoteCache

  // ---------------------------------------------------------------- the undeclared flag and the order

  /** The entry shows a leader outside the declared peers. */
  ghost predicate LeadsOutside(cfg: Config, e: Entry)
  {
    e.node.pubkey == cfg.activePubkey && Cleared(e.node.pubkey, e.probe) && !Declared(cfg, HostOf(e.node.gossip))
  }

  ghost predicate Nameless(e: Entry)
  {
    HostOf(e.node.gossip) == ""
  }

  lemma LeadsOutsideMeaning(
    owner: string -> string, cfg: Config, cache: map<string, string>, es: seq<Entry>, k: nat)
    requires k < |es| && CacheSound(owner, cache) && AllTruthful(owner, cfg, es)
    ensures LeadsOutside(cfg, es[k]) <==> ReadingAt(cfg, cache, es, k).leads && !Declared(cfg, HostOf(es[k].node.gossip))
  {
    TruthIsUnmisled(owner, cfg, cache, es);
    ReadingIsDirect(cfg, cache, es, k);
    DirectMeaning(es[k].node.pubkey, es[k].probe);
  }

  /** If the outside leaders are all nameless or all not, the flag says whether there is one with a name. */
  lemma FlagWhenAlike(owner: string -> string, cfg: Config, v: View, es: seq<Entry>, nameless: bool)
    requires UniqueIPs(cfg.peers) && CacheSound(owner, v.cache) && AllTruthful(owner, cfg, es)
    requires forall e :: e in es && LeadsOutside(cfg, e) ==> (Nameless(e) <==> nameless)
    ensures HasUndeclared(Refreshed(cfg, v, Ok(es))) <==> !nameless && exists e :: e in es && LeadsOutside(cfg, e)
  {
    UndeclaredFlagExactly(cfg, v, es);
    hide LeadsOutside, ReadingAt, Refreshed, AllTruthful;
    forall k: nat | k < |es|
      ensures LeadsOutside(cfg, es[k]) <==> ReadingAt(cfg, v.cache, es, k).leads && !Declared(cfg, HostOf(es[k].node.gossip))
    {
      LeadsOutsideMeaning(owner, cfg, v.cache, es, k);
    }
    if e :| e in es && LeadsOutside(cfg, e) {
      var i :| 0 <= i < |es| && es[i] == e;
      var k := LastOutsideLeaderAfter(cfg, v.cache, es, |es|, i);
      assert es[k] in es;
    }
  }

  /** A list whose last entry is an outside leader raises the flag exactly if that one has a name. */
  lemma LastLeaderDecides(owner: string -> string, cfg: Config, v: View, fs: seq<Entry>)
    requires UniqueIPs(cfg.peers) && CacheSound(owner, v.cache) && AllTruthful(owner, cfg, fs)
    requires fs != [] && LeadsOutside(cfg, fs[|fs| - 1])
    ensures HasUndeclared(Refreshed(cfg, v, Ok(fs))) <==> !Nameless(fs[|fs| - 1])
  {
    UndeclaredFlagExactly(cfg, v, fs);
    LeadsOutsideMeaning(owner, cfg, v.cache, fs, |fs| - 1);
    assert LastOutsideLeader(cfg, v.cache, fs, |fs|, |fs| - 1);
  }

  /** Some order of the list has the entry `e` last. */
  lemma MovedLast(es: seq<Entry>, e: Entry) returns (fs: seq<Entry>)
    requires e in es
    ensures multiset(fs) == multiset(es) && fs != [] && fs[|fs| - 1] == e
  {
    var i :| 0 <= i < |es| && es[i] == e;
    fs := es[..i] + es[i + 1..] + [e];
    assert es == es[..i] + [e] + es[i + 1..];
  }

  /** No two leaders outside the declared peers differ in whether they have a host. */
  ghost predicate OutsidersAlike(cfg: Config, es: seq<Entry>)
  {
    forall e, f :: e in es && f in es && LeadsOutside(cfg, e) && LeadsOutside(cfg, f) ==> (Nameless(e) <==> Nameless(f))
  }

  /**
   Order and the undeclared flag, exactly: with truthful answers every permutation of the
   list gives the same flag if and only if the leaders outside the declared peers all have
   an empty host or none of them has.
   */
  lemma UndeclaredFlagIgnoresOrderExactly(owner: string -> string, cfg: Config, v: View, es: seq<Entry>)
    requires UniqueIPs(cfg.peers) && CacheSound(owner, v.cache) && AllTruthful(owner, cfg, es)
    ensures (forall fs :: multiset(fs) == multiset(es) ==>
               HasUndeclared(Refreshed(cfg, v, Ok(fs))) == HasUndeclared(Refreshed(cfg, v, Ok(es))))
       <==> OutsidersAlike(cfg, es)
  {
    hide LeadsOutside, Nameless, Refreshed, HasUndeclared, AllTruthful;
    if OutsidersAlike(cfg, es) {
      var nameless := exists e :: e in es && LeadsOutside(cfg, e) && Nameless(e);
      FlagWhenAlike(owner, cfg, v, es, nameless);
      forall fs | multiset(fs) == multiset(es)
        ensures HasUndeclared(Refreshed(cfg, v, Ok(fs))) == HasUndeclared(Refreshed(cfg, v, Ok(es)))
      {
        PermutationReadsAlike(owner, cfg, v, es, fs);
        forall e ensures e in fs <==> e in es {
          assert e in multiset(es) <==> e in multiset(fs);
        }
        FlagWhenAlike(owner, cfg, v, fs, nameless);
      }
    } else {
      var e, f :| e in es && f in es && LeadsOutside(cfg, e) && LeadsOutside(cfg, f) && Nameless(e) && !Nameless(f);
      var down := MovedLast(es, e);
      var up := MovedLast(es, f);
      PermutationReadsAlike(owner, cfg, v, es, down);
      PermutationReadsAlike(owner, cfg, v, es, up);
      LastLeaderDecides(owner, cfg, v, down);
      LastLeaderDecides(owner, cfg, v, up);
    }
  }

  /** Two undeclared leaders, at ":1" and at "9:1": the flag is up for one order and down for the other. */
  lemma OrderDecidesTheFlag(cfg: Config, nameless: Entry, named: Entry)
    requires cfg == Config("A", map["us" := "1"])
    requires nameless == Entry(Node(":1", "A"), Probe(_ => Failed, Failed))
    requires named == Entry(Node("9:1", "A"), Probe(_ => Failed, Failed))
    ensures HasUndeclared(Refreshed(cfg, INITIAL_VIEW, Ok([nameless, named])))
    ensures !HasUndeclared(Refreshed(cfg, INITIAL_VIEW, Ok([named, nameless])))
  {
    var owner := (k: string) => k;
    assert UniqueIPs(cfg.peers) && !Declared(cfg, "") && !Declared(cfg, "9");
    assert HostOf("9:1") == "9";
    assert LeadsOutside(cfg, nameless) && LeadsOutside(cfg, named);
    LastLeaderDecides(owner, cfg, INITIAL_VIEW, [nameless, named]);
    LastLeaderDecides(owner, cfg, INITIAL_VIEW, [named, nameless]);
  }

  // ---------------------------------------------------------------- a flag and a leader in one refresh

  /** One entry under the active key is accused by its answers, and one is cleared by its own. */
  ghost predicate AnswersSplit(cfg: Config, es: seq<Entry>)
  {
    exists e, f :: e in es && f in es && e.node.pubkey == f.node.pubkey == cfg.activePubkey
                && Accused(cfg.activePubkey, e.probe) && Cleared(cfg.activePubkey, f.probe)
  }

  /**
   The split, exactly: unless the cache misleads, a refresh raises the flag and yet resets
   the count if and only if the answers, which may fail and may differ between entries, split.
   */
  lemma SplitsExactly(cfg: Config, v: View, es: seq<Entry>)
    requires UniqueIPs(cfg.peers) && Unmisled(cfg, v.cache, es)
    ensures var w := Refreshed(cfg, v, Ok(es)); (w.delinquent && w.count == 0) <==> AnswersSplit(cfg, es)
  {
    RefreshRefinesReadings(cfg, v, es);
    ReadingsAreDirect(cfg, v.cache, es);
    var rs := Readings(cfg, v.cache, es);
    hide Refreshed, Readings, Accused, Cleared, DirectReading;
    forall e | e in es
      ensures DirectReading(cfg, e) in rs
      ensures DirectReading(cfg, e).flags <==> e.node.pubkey == cfg.activePubkey && Accused(cfg.activePubkey, e.probe)
      ensures DirectReading(cfg, e).leads <==> e.node.pubkey == cfg.activePubkey && Cleared(cfg.activePubkey, e.probe)
    {
      DirectReadingMeaning(cfg, e);
    }
  }

  lemma DirectReadingMeaning(cfg: Config, e: Entry)
    ensures DirectReading(cfg, e).flags <==> e.node.pubkey == cfg.activePubkey && Accused(cfg.activePubkey, e.probe)
    ensures DirectReading(cfg, e).leads <==> e.node.pubkey == cfg.activePubkey && Cleared(cfg.activePubkey, e.probe)
  {
    DirectMeaning(cfg.activePubkey, e.probe);
  }

  /** A probe whose calls succeed and whose filtered answers are honest. */
  function HonestProbe(table: VoteTable, balance: nat): Probe
  {
    Probe((q: Option<string>) => if q.None? then Ok(table) else Ok(Filtered(table, q.value)), Ok(balance))
  }

  /**
   The split does occur: two entries under the active key, the first judged delinquent, the
   second forgiven by a failed call, and the flag and an active peer come together.
   */
  lemma UnsteadyAnswersSplit(cfg: Config, es: seq<Entry>)
    requires cfg == Config("A", map["us" := "1", "them" := "2"])
    requires es == [
      Entry(Node("9:1", "A"), HonestProbe(VoteTable([], [VoteAccount("A", "v")]), RENT_EXEMPT_MINIMUM + 1)),
      Entry(Node("2:1", "A"), Probe(_ => Failed, Failed))]
    ensures var w := Refreshed(cfg, INITIAL_VIEW, Ok(es)); w.delinquent && w.count == 0 && HasActivePeer(w)
  {
    var cache := INITIAL_VIEW.cache;
    var rs := Readings(cfg, cache, es);
    assert UniqueIPs(cfg.peers);
    ReadingIsIn(cfg, cache, es, 2, 0);
    ReadingIsIn(cfg, cache, es, 2, 1);
    assert ReadingAt(cfg, cache, es, 0).flags;
    assert ReadingAt(cfg, cache, es, 1).leads;
    RefreshRefinesReadings(cfg, INITIAL_VIEW, es);
    assert HostOf("2:1") == "2" == cfg.peers["them"];
    assert ActiveIn(rs, cfg.peers["them"]);
    ActiveMeansLed(cfg, INITIAL_VIEW, es);
    assert RoleAsRead(cfg, rs, Refreshed(cfg, INITIAL_VIEW, Ok(es)).peers, "them");
  }

  // ---------------------------------------------------------------- a cached key that has moved

  /** In every table for the active key, `k` is the key of somebody else's vote account, and of nobody's besides. */
  ghost predicate MovedAway(cfg: Config, k: string, es: seq<Entry>)
  {
    forall e :: e in es && e.node.pubkey == cfg.activePubkey ==>
      && Honest(e.probe) && e.probe.votes(None).Ok?
      && var table := e.probe.votes(None).value;
         && (exists a :: a in table.current + table.delinquent && a.votePubkey == k)
         && !Holds(table.current, cfg.activePubkey, k) && !Holds(table.delinquent, cfg.activePubkey, k)
  }

  /** A moved key is not evicted, and shows the active identity as not voting. */
  lemma MovedKeyVerdict(cache: map<string, string>, pubkey: string, p: Probe)
    requires pubkey in cache && Honest(p) && p.votes(None).Ok?
    requires var table, k := p.votes(None).value, cache[pubkey];
             && (exists a :: a in table.current + table.delinquent && a.votePubkey == k)
             && !Holds(table.current, pubkey, k) && !Holds(table.delinquent, pubkey, k)
    ensures Judge(cache, pubkey, p) == Verdict(false, false, cache)
  {
    var table, k := p.votes(None).value, cache[pubkey];
    assert p.votes(Some(k)) == Ok(Filtered(table, k));
    FilteredLists(table, k, pubkey);
    FindFinds(Filtered(table, k).current, pubkey);
    FindFinds(Filtered(table, k).delinquent, pubkey);
  }

  lemma {:induction false} MovedKeyStays(cfg: Config, cache: map<string, string>, es: seq<Entry>, n: nat)
    requires n <= |es| && cfg.activePubkey in cache && MovedAway(cfg, cache[cfg.activePubkey], es)
    ensures CacheUpTo(cfg, cache, es, n) == cache
    ensures forall r :: r in ReadingsUpTo(cfg, cache, es, n) ==> !r.leads && !r.flags
  {
    if n == 0 {
    } else {
      MovedKeyStays(cfg, cache, es, n - 1);
      if es[n - 1].node.pubkey == cfg.activePubkey {
        assert es[n - 1] in es;
        MovedKeyVerdict(cache, cfg.activePubkey, es[n - 1].probe);
      }
    }
  }

  /** A refresh with a moved key counts one more leaderless sample and names nobody, whoever votes. */
  lemma MovedKeyCountsOn(cfg: Config, v: View, es: seq<Entry>)
    requires UniqueIPs(cfg.peers) && cfg.activePubkey in v.cache && MovedAway(cfg, v.cache[cfg.activePubkey], es)
    ensures var w := Refreshed(cfg, v, Ok(es));
            w.count == v.count + 1 && w.cache == v.cache && !w.delinquent && !HasActivePeer(w) && !HasUndeclared(w)
  {
    MovedKeyStays(cfg, v.cache, es, |es|);
    RefreshRefinesReadings(cfg, v, es);
    ActiveMeansLed(cfg, v, es);
  }

  /**
   So a leader is counted out, however long it goes on voting: as long as the cached key
   belongs to somebody else, every successful refresh counts one more leaderless sample.
   */
  lemma {:induction false} MovedKeyCountsOut(cfg: Config, v: View, answers: seq<Answer<seq<Entry>>>, n: nat)
    requires UniqueIPs(cfg.peers) && cfg.activePubkey in v.cache && n <= |answers|
    requires forall i :: 0 <= i < |answers| ==> answers[i].Ok? && MovedAway(cfg, v.cache[cfg.activePubkey], answers[i].value)
    ensures ViewAfter(cfg, v, answers, n).count == v.count + n
    ensures ViewAfter(cfg, v, answers, n).cache == v.cache
  {
    if n == 0 {
    } else {
      MovedKeyCountsOut(cfg, v, answers, n - 1);
      MovedKeyCountsOn(cfg, ViewAfter(cfg, v, answers, n - 1), answers[n - 1].value);
    }
  }

  /** It can happen to a healthy leader: A votes under "v2", B has taken over A's former account "v1". */
  lemma MovedAccountExample(cfg: Config, es: seq<Entry>)
    requires cfg == Config("A", map["us" := "1", "them" := "2"])
    requires es == [Entry(Node("2:1", "A"), HonestProbe(VoteTable([VoteAccount("B", "v1"), VoteAccount("A", "v2")], []), 0))]
    ensures Cleared("A", es[0].probe) && AtMostOneAccount(es[0].probe.votes(None).value, "A")
    ensures MovedAway(cfg, "v1", es) && Misled(map["A" := "v1"], "A", es[0].probe)
  {
    var table := es[0].probe.votes(None).value;
    assert VoteAccount("B", "v1") in table.current + table.delinquent && VoteAccount("A", "v2") in table.current;
    assert "A"[0] != "B"[0] && "v1"[1] != "v2"[1];
  }
}
