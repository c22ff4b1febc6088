/**
 The vote key cache is only an optimisation: with truthful answers it never changes a
 verdict.  And with steady answers within one refresh, all entries under the active key
 get one verdict, which is what makes the delinquency fast path sound.
 */
module VoteCache {
  import opened Answers
  import opened Gossip
  import opened RefreshMeaning

  // ---------------------------------------------------------------- vote tables and filtered answers

  function Keep(accounts: seq<VoteAccount>, votePubkey: string): seq<VoteAccount>
  {
    if accounts == [] then []
    else if accounts[0].votePubkey == votePubkey then [accounts[0]] + Keep(accounts[1..], votePubkey)
    else Keep(accounts[1..], votePubkey)
  }

  /** What getVoteAccounts returns when filtered by one vote key. */
  function Filtered(table: VoteTable, votePubkey: string): VoteTable
  {
    VoteTable(Keep(table.current, votePubkey), Keep(table.delinquent, votePubkey))
  }

  /** The filtered answers are the filtered table; if the unfiltered call fails, so do they. */
  ghost predicate Honest(p: Probe)
  {
    forall k: string :: p.votes(Some(k)) ==
      (match p.votes(None) case Failed => Failed case Ok(table) => Ok(Filtered(table, k)))
  }

  /** The identity `pubkey` has at most one vote account in the table. */
  ghost predicate AtMostOneAccount(table: VoteTable, pubkey: string)
  {
    && (forall a, b :: a in table.current && b in table.current && a.nodePubkey == b.nodePubkey == pubkey ==> a == b)
    && (forall a, b :: a in table.delinquent && b in table.delinquent && a.nodePubkey == b.nodePubkey == pubkey ==> a == b)
    && (forall a, b :: a in table.current && b in table.delinquent ==> !(a.nodePubkey == b.nodePubkey == pubkey))
  }

  lemma {:induction false} KeepSelects(accounts: seq<VoteAccount>, k: string)
    ensures forall a :: a in Keep(accounts, k) <==> a in accounts && a.votePubkey == k
  {
    if accounts == [] {
    } else {
      KeepSelects(accounts[1..], k);
      assert accounts == [accounts[0]] + accounts[1..];
    }
  }

  lemma {:induction false} FindFinds(accounts: seq<VoteAccount>, pubkey: string)
    ensures var found := FindAccount(accounts, pubkey);
            && (found.Some? ==> found.value in accounts && found.value.nodePubkey == pubkey)
            && (found.None? ==> forall a :: a in accounts ==> a.nodePubkey != pubkey)
  {
    if accounts != [] && accounts[0].nodePubkey != pubkey {
      FindFinds(accounts[1..], pubkey);
    }
  }

  ghost predicate Lists(accounts: seq<VoteAccount>, pubkey: string)
  {
    exists a :: a in accounts && a.nodePubkey == pubkey
  }

  /** The answer a judgement rests on: the filtered one if a key is cached and it is not empty, else the unfiltered one. */
  ghost function Asked(cache: map<string, string>, pubkey: string, p: Probe): Answer<VoteTable>
  {
    if pubkey in cache && p.votes(Some(cache[pubkey])) != Ok(VoteTable([], [])) then p.votes(Some(cache[pubkey]))
    else p.votes(None)
  }

  /**
   What a verdict means.  A failed call never counts against a node; otherwise it is flagged
   exactly if it is listed as delinquent and known to have the balance to vote, and it is
   voting if it is listed as delinquent but not flagged, or else as current.
   */
  lemma VerdictMeaning(cache: map<string, string>, pubkey: string, p: Probe)
    ensures var j := Judge(cache, pubkey, p);
            match Asked(cache, pubkey, p)
            case Failed => j.voting && !j.delinquent
            case Ok(table) =>
              && (j.delinquent <==> Lists(table.delinquent, pubkey) && p.balance.Ok? && p.balance.value > 890_880)
              && (j.voting <==> if Lists(table.delinquent, pubkey) then !j.delinquent else Lists(table.current, pubkey))
  {
    var looked := Asked(cache, pubkey, p);
    if looked.Ok? {
      FindFinds(looked.value.delinquent, pubkey);
      FindFinds(looked.value.current, pubkey);
    }
  }

  /** The first account of the identity among these has the key `k`. */
  ghost predicate FirstOwn(accounts: seq<VoteAccount>, pubkey: string, k: string)
  {
    exists i :: 0 <= i < |accounts| && accounts[i].nodePubkey == pubkey && accounts[i].votePubkey == k
             && forall j :: 0 <= j < i ==> accounts[j].nodePubkey != pubkey
  }

  lemma {:induction false} FindFindsFirst(accounts: seq<VoteAccount>, pubkey: string)
    ensures var found := FindAccount(accounts, pubkey);
            && (found.Some? <==> Lists(accounts, pubkey))
            && (found.Some? ==> FirstOwn(accounts, pubkey, found.value.votePubkey) && found.value.nodePubkey == pubkey)
  {
    if accounts == [] {
    } else if accounts[0].nodePubkey == pubkey {
      assert accounts[0] in accounts;
    } else {
      FindFindsFirst(accounts[1..], pubkey);
      assert forall a :: a in accounts <==> a == accounts[0] || a in accounts[1..];
      var found := FindAccount(accounts[1..], pubkey);
      if found.Some? {
        var i :| 0 <= i < |accounts| - 1 && accounts[1..][i].nodePubkey == pubkey && accounts[1..][i].votePubkey == found.value.votePubkey
              && forall j :: 0 <= j < i ==> accounts[1..][j].nodePubkey != pubkey;
        assert accounts[i + 1] == accounts[1..][i];
        assert forall j :: 0 < j < i + 1 ==> accounts[j] == accounts[1..][j - 1];
      }
    }
  }

  /**
   What a judgement leaves in the cache.  If the answer it rests on lists the identity, the
   key of its first account there, in the delinquent list if it is in that, else in the
   current one.  If not, the key that was there, unless it was found stale and evicted.
   Nobody else's key is touched.
   */
  lemma CacheAfterJudging(cache: map<string, string>, pubkey: string, p: Probe)
    ensures var after, asked := Judge(cache, pubkey, p).cache, Asked(cache, pubkey, p);
            && (forall id :: id != pubkey ==> (id in after <==> id in cache) && (id in cache ==> after[id] == cache[id]))
            && (if asked.Ok? && Lists(asked.value.delinquent, pubkey) then
                  pubkey in after && FirstOwn(asked.value.delinquent, pubkey, after[pubkey])
                else if asked.Ok? && Lists(asked.value.current, pubkey) then
                  pubkey in after && FirstOwn(asked.value.current, pubkey, after[pubkey])
                else if pubkey in cache && p.votes(Some(cache[pubkey])) != Ok(VoteTable([], [])) then after == cache
                else pubkey !in after)
  {
    var asked := Asked(cache, pubkey, p);
    if asked.Ok? {
      FindFindsFirst(asked.value.delinquent, pubkey);
      FindFindsFirst(asked.value.current, pubkey);
    }
    hide FindAccount, FirstOwn, Lists;
  }

  /**
   So once the identity was listed, the next entry under it is judged by the filtered answer
   for one of its accounts, unless that answer is empty.
   */
  lemma NextIsAskedFiltered(cache: map<string, string>, pubkey: string, p: Probe, q: Probe)
    requires var asked := Asked(cache, pubkey, p);
             asked.Ok? && (Lists(asked.value.delinquent, pubkey) || Lists(asked.value.current, pubkey))
    ensures var after, asked := Judge(cache, pubkey, p).cache, Asked(cache, pubkey, p).value;
            exists k :: (FirstOwn(asked.delinquent, pubkey, k) || FirstOwn(asked.current, pubkey, k))
                     && (q.votes(Some(k)) != Ok(VoteTable([], [])) ==> Asked(after, pubkey, q) == q.votes(Some(k)))
  {
    CacheAfterJudging(cache, pubkey, p);
    hide Judge, FirstOwn, Lists;
    var after, asked := Judge(cache, pubkey, p).cache, Asked(cache, pubkey, p).value;
    assert FirstOwn(asked.delinquent, pubkey, after[pubkey]) || FirstOwn(asked.current, pubkey, after[pubkey]);
  }

  /** No answer lists the identity as delinquent, or the balance to vote is not there or not known. */
  ghost predicate Unaccusing(pubkey: string, p: Probe)
  {
    p.balance.Failed? || p.balance.value <= RENT_EXEMPT_MINIMUM
    || forall q :: p.votes(q).Ok? ==> !Lists(p.votes(q).value.delinquent, pubkey)
  }

  /** Filtering by a vote key keeps the account found first, if it has that key. */
  lemma {:induction false} KeepFindsSame(accounts: seq<VoteAccount>, k: string, pubkey: string)
    ensures var found := FindAccount(accounts, pubkey);
            && (found.None? ==> FindAccount(Keep(accounts, k), pubkey).None?)
            && (found.Some? && found.value.votePubkey == k ==> FindAccount(Keep(accounts, k), pubkey) == found)
  {
    if accounts == [] {
    } else {
      KeepFindsSame(accounts[1..], k, pubkey);
      assert accounts[0].votePubkey == k ==> Keep(accounts, k)[1..] == Keep(accounts[1..], k);
    }
  }

  /** Filtering by the vote key of the account found for an identity does not change what is found for it. */
  lemma FilteredByOwnKey(table: VoteTable, k: string, pubkey: string, balance: Answer<nat>)
    requires Weigh(table, balance, pubkey).account.Some? ==> Weigh(table, balance, pubkey).account.value.votePubkey == k
    ensures Weigh(Filtered(table, k), balance, pubkey) == Weigh(table, balance, pubkey)
  {
    KeepFindsSame(table.delinquent, k, pubkey);
    KeepFindsSame(table.current, k, pubkey);
  }

  // ---------------------------------------------------------------- transparency of the cache

  /** Every vote account belongs to one identity for good: `owner` names it. */
  ghost predicate RespectsOwners(owner: string -> string, table: VoteTable)
  {
    forall a :: a in table.current + table.delinquent ==> owner(a.votePubkey) == a.nodePubkey
  }

  ghost predicate CacheSound(owner: string -> string, cache: map<string, string>)
  {
    forall id :: id in cache ==> owner(cache[id]) == id
  }

  /** Filtering is honest, and the table, if the call succeeds, respects the owners. */
  ghost predicate Sound(owner: string -> string, p: Probe)
  {
    Honest(p) && (p.votes(None).Ok? ==> RespectsOwners(owner, p.votes(None).value))
  }

  /** And the identity `pubkey` has one vote account at most. */
  ghost predicate Truthful(owner: string -> string, pubkey: string, p: Probe)
  {
    Sound(owner, p) && (p.votes(None).Ok? ==> AtMostOneAccount(p.votes(None).value, pubkey))
  }

  /** The verdict of an unfiltered lookup with no cache at all. */
  function Direct(pubkey: string, p: Probe): Weighed
  {
    match p.votes(None)
    case Failed => Weighed(true, false, None)
    case Ok(table) => Weigh(table, p.balance, pubkey)
  }

  /** The identity is listed as delinquent, and known to have the balance to vote. */
  ghost predicate Accused(pubkey: string, p: Probe)
  {
    && p.votes(None).Ok? && Lists(p.votes(None).value.delinquent, pubkey)
    && p.balance.Ok? && p.balance.value > RENT_EXEMPT_MINIMUM
  }

  /** The call failed, or the identity is listed as delinquent but forgiven, or as current only. */
  ghost predicate Cleared(pubkey: string, p: Probe)
  {
    p.votes(None).Ok? ==>
      if Lists(p.votes(None).value.delinquent, pubkey) then p.balance.Failed? || p.balance.value <= RENT_EXEMPT_MINIMUM
      else Lists(p.votes(None).value.current, pubkey)
  }

  lemma DirectMeaning(pubkey: string, p: Probe)
    ensures Direct(pubkey, p).delinquent <==> Accused(pubkey, p)
    ensures Direct(pubkey, p).voting <==> Cleared(pubkey, p)
  {
    if p.votes(None).Ok? {
      FindFinds(p.votes(None).value.delinquent, pubkey);
      FindFinds(p.votes(None).value.current, pubkey);
    }
  }

  /** The identity holds, among these accounts, the one under the vote key `k`. */
  ghost predicate Holds(accounts: seq<VoteAccount>, pubkey: string, k: string)
  {
    exists a :: a in accounts && a.nodePubkey == pubkey && a.votePubkey == k
  }

  /**
   The cached key is in the table, so the filtered answer is not empty and is all that is
   looked at, and it does not show what the whole table shows: the identity is accused, but
   the cached key is not among its delinquent accounts; or the identity is listed, but the
   cached key is not its own any more.
   */
  ghost predicate Misled(cache: map<string, string>, pubkey: string, p: Probe)
  {
    && p.votes(None).Ok? && pubkey in cache
    && var table, k := p.votes(None).value, cache[pubkey];
       && (exists a :: a in table.current + table.delinquent && a.votePubkey == k)
       && !Holds(table.delinquent, pubkey, k)
       && if Lists(table.delinquent, pubkey) then Accused(pubkey, p) || !Holds(table.current, pubkey, k)
          else Lists(table.current, pubkey) && !Holds(table.current, pubkey, k)
  }

  lemma FilteredLists(table: VoteTable, k: string, pubkey: string)
    ensures Lists(Filtered(table, k).current, pubkey) <==> Holds(table.current, pubkey, k)
    ensures Lists(Filtered(table, k).delinquent, pubkey) <==> Holds(table.delinquent, pubkey, k)
    ensures Filtered(table, k) == VoteTable([], [])
       <==> forall a :: a in table.current + table.delinquent ==> a.votePubkey != k
  {
    KeepSelects(table.current, k);
    KeepSelects(table.delinquent, k);
    var kept := Keep(table.current, k) + Keep(table.delinquent, k);
    if kept != [] {
      assert kept[0] in table.current + table.delinquent;
    }
  }

  /**
   One judgement, exactly, for any cache and any table: with honest answers the cached
   lookup gives another verdict than the uncached one if and only if the cache misleads it.
   */
  lemma CacheMisleadsExactly(cache: map<string, string>, pubkey: string, p: Probe)
    requires Honest(p)
    ensures var w, j := Direct(pubkey, p), Judge(cache, pubkey, p);
            (j.voting == w.voting && j.delinquent == w.delinquent) <==> !Misled(cache, pubkey, p)
  {
    DirectMeaning(pubkey, p);
    VerdictMeaning(cache, pubkey, p);
    if pubkey in cache {
      var k := cache[pubkey];
      assert p.votes(Some(k)) == (match p.votes(None) case Failed => Failed case Ok(table) => Ok(Filtered(table, k)));
      if p.votes(None).Ok? {
        var table := p.votes(None).value;
        FilteredLists(table, k, pubkey);
        assert Holds(table.current, pubkey, k) ==> Lists(table.current, pubkey);
        assert Holds(table.delinquent, pubkey, k) ==> Lists(table.delinquent, pubkey);
        hide Filtered, Weigh, Judge, Direct, Holds, Lists;
      }
    }
  }

  lemma JudgeKeepsCacheSound(owner: string -> string, cache: map<string, string>, pubkey: string, p: Probe)
    requires CacheSound(owner, cache) && Sound(owner, p)
    ensures CacheSound(owner, Judge(cache, pubkey, p).cache)
  {
    if p.votes(None).Ok? {
      var table := p.votes(None).value;
      FindFinds(table.current, pubkey);
      FindFinds(table.delinquent, pubkey);
      if pubkey in cache {
        var k := cache[pubkey];
        assert p.votes(Some(k)) == Ok(Filtered(table, k));
        KeepSelects(table.current, k);
        KeepSelects(table.delinquent, k);
        FindFinds(Keep(table.current, k), pubkey);
        FindFinds(Keep(table.delinquent, k), pubkey);
      }
    } else if pubkey in cache {
      assert p.votes(Some(cache[pubkey])) == Failed;
    }
  }

  /** An identity that is accused has another vote account, the cached one, that is listed as current only. */
  ghost predicate Hidden(cache: map<string, string>, pubkey: string, p: Probe)
  {
    && Accused(pubkey, p) && pubkey in cache
    && (exists a :: a in p.votes(None).value.current && a.votePubkey == cache[pubkey])
    && (forall a :: a in p.votes(None).value.delinquent ==> a.votePubkey != cache[pubkey])
  }

  /**
   If vote accounts keep their identity, what is left of this is one case: the cache misleads
   if and only if it looks at the current one of two accounts and so hides a delinquency.
   */
  lemma CacheHidesExactly(owner: string -> string, cache: map<string, string>, pubkey: string, p: Probe)
    requires CacheSound(owner, cache) && Sound(owner, p)
    ensures Misled(cache, pubkey, p) <==> Hidden(cache, pubkey, p)
  {
    if pubkey in cache && p.votes(None).Ok? {
      var table := p.votes(None).value;
      forall a | a in table.current + table.delinquent && a.votePubkey == cache[pubkey] ensures a.nodePubkey == pubkey {
      }
      assert forall a :: a in table.current ==> a in table.current + table.delinquent;
      assert forall a :: a in table.delinquent ==> a in table.current + table.delinquent;
    }
  }

  /** With one account per identity besides, there is nothing to hide. */
  lemma JudgeIsTransparent(owner: string -> string, cache: map<string, string>, pubkey: string, p: Probe)
    requires CacheSound(owner, cache) && Truthful(owner, pubkey, p)
    ensures !Misled(cache, pubkey, p)
    ensures var w, j := Direct(pubkey, p), Judge(cache, pubkey, p);
            j.voting == w.voting && j.delinquent == w.delinquent
    ensures CacheSound(owner, Judge(cache, pubkey, p).cache)
  {
    CacheMisleadsExactly(cache, pubkey, p);
    CacheHidesExactly(owner, cache, pubkey, p);
    JudgeKeepsCacheSound(owner, cache, pubkey, p);
    if pubkey in cache && p.votes(None).Ok? {
      var table := p.votes(None).value;
      forall a | a in table.current && a.votePubkey == cache[pubkey] ensures a.nodePubkey == pubkey {
        assert a in table.current + table.delinquent;
      }
    }
  }

  /** The reading of an entry by an unfiltered lookup with no cache at all. */
  ghost function DirectReading(cfg: Config, e: Entry): Reading
  {
    if e.node.pubkey == cfg.activePubkey then
      Reading(e.node, Direct(e.node.pubkey, e.probe).voting, Direct(e.node.pubkey, e.probe).delinquent)
    else
      Reading(e.node, false, false)
  }

  ghost predicate AllTruthful(owner: string -> string, cfg: Config, es: seq<Entry>)
  {
    forall e :: e in es && e.node.pubkey == cfg.activePubkey ==> Truthful(owner, cfg.activePubkey, e.probe)
  }

  lemma {:induction false} CacheStaysSound(owner: string -> string, cfg: Config, cache: map<string, string>, es: seq<Entry>, n: nat)
    requires n <= |es| && CacheSound(owner, cache) && AllTruthful(owner, cfg, es)
    ensures CacheSound(owner, CacheUpTo(cfg, cache, es, n))
  {
    if n == 0 {
    } else {
      CacheStaysSound(owner, cfg, cache, es, n - 1);
      if es[n - 1].node.pubkey == cfg.activePubkey {
        JudgeIsTransparent(owner, CacheUpTo(cfg, cache, es, n - 1), cfg.activePubkey, es[n - 1].probe);
      }
    }
  }

  /** Entry `k` is judged under the active key, and the cache at that moment misleads. */
  ghost predicate MisledAt(cfg: Config, cache: map<string, string>, es: seq<Entry>, k: nat)
    requires k < |es|
  {
    es[k].node.pubkey == cfg.activePubkey && Misled(CacheUpTo(cfg, cache, es, k), cfg.activePubkey, es[k].probe)
  }

  /** One entry, exactly, whatever came before: it is read as without a cache if and only if the cache does not mislead. */
  lemma ReadingIsDirectExactly(cfg: Config, cache: map<string, string>, es: seq<Entry>, k: nat)
    requires k < |es| && (es[k].node.pubkey == cfg.activePubkey ==> Honest(es[k].probe))
    ensures ReadingAt(cfg, cache, es, k) == DirectReading(cfg, es[k]) <==> !MisledAt(cfg, cache, es, k)
  {
    if es[k].node.pubkey == cfg.activePubkey {
      CacheMisleadsExactly(CacheUpTo(cfg, cache, es, k), cfg.activePubkey, es[k].probe);
    }
  }

  /** All answers on active entries are honest, and the cache misleads on none of them. */
  ghost predicate Unmisled(cfg: Config, cache: map<string, string>, es: seq<Entry>)
  {
    forall k :: 0 <= k < |es| && es[k].node.pubkey == cfg.activePubkey ==> Honest(es[k].probe) && !MisledAt(cfg, cache, es, k)
  }

  /** Truthful answers and a sound cache never mislead. */
  lemma TruthIsUnmisled(owner: string -> string, cfg: Config, cache: map<string, string>, es: seq<Entry>)
    requires CacheSound(owner, cache) && AllTruthful(owner, cfg, es)
    ensures Unmisled(cfg, cache, es)
  {
    forall k | 0 <= k < |es| && es[k].node.pubkey == cfg.activePubkey ensures Honest(es[k].probe) && !MisledAt(cfg, cache, es, k) {
      CacheStaysSound(owner, cfg, cache, es, k);
      JudgeIsTransparent(owner, CacheUpTo(cfg, cache, es, k), cfg.activePubkey, es[k].probe);
    }
  }

  lemma ReadingIsDirect(cfg: Config, cache: map<string, string>, es: seq<Entry>, k: nat)
    requires k < |es| && Unmisled(cfg, cache, es)
    ensures ReadingAt(cfg, cache, es, k) == DirectReading(cfg, es[k])
  {
    ReadingIsDirectExactly(cfg, cache, es, k);
  }

  lemma {:induction false} ReadingsUpToAreDirect(cfg: Config, cache: map<string, string>, es: seq<Entry>, n: nat)
    requires n <= |es| && Unmisled(cfg, cache, es)
    ensures ReadingsUpTo(cfg, cache, es, n) == set i | 0 <= i < n :: DirectReading(cfg, es[i])
  {
    if n == 0 {
    } else {
      ReadingsUpToAreDirect(cfg, cache, es, n - 1);
      ReadingIsDirect(cfg, cache, es, n - 1);
      var before := set i | 0 <= i < n - 1 :: DirectReading(cfg, es[i]);
      assert (set i | 0 <= i < n :: DirectReading(cfg, es[i])) == before + {DirectReading(cfg, es[n - 1])} by {
        hide DirectReading;
      }
    }
  }

  /** One refresh that is not misled: the readings are those of a refresh without any cache. */
  lemma ReadingsAreDirect(cfg: Config, cache: map<string, string>, es: seq<Entry>)
    requires Unmisled(cfg, cache, es)
    ensures Readings(cfg, cache, es) == set e | e in es :: DirectReading(cfg, e)
  {
    ReadingsUpToAreDirect(cfg, cache, es, |es|);
    hide DirectReading;
    assert (set i | 0 <= i < |es| :: DirectReading(cfg, es[i])) == set e | e in es :: DirectReading(cfg, e);
  }

  /** The view after the first `n` of a run of refreshes. */
  ghost function ViewAfter(cfg: Config, v: View, answers: seq<Answer<seq<Entry>>>, n: nat): View
    requires n <= |answers|
  {
    if n == 0 then v else Refreshed(cfg, ViewAfter(cfg, v, answers, n - 1), answers[n - 1])
  }

  lemma {:induction false} RunKeepsCacheSound(
    owner: string -> string, cfg: Config, v: View, answers: seq<Answer<seq<Entry>>>, n: nat)
    requires n <= |answers| && CacheSound(owner, v.cache) && UniqueIPs(cfg.peers)
    requires forall i :: 0 <= i < |answers| && answers[i].Ok? ==> AllTruthful(owner, cfg, answers[i].value)
    ensures CacheSound(owner, ViewAfter(cfg, v, answers, n).cache)
  {
    if n == 0 {
    } else {
      RunKeepsCacheSound(owner, cfg, v, answers, n - 1);
      if answers[n - 1].Ok? {
        var before := ViewAfter(cfg, v, answers, n - 1);
        RefreshRefinesReadings(cfg, before, answers[n - 1].value);
        CacheStaysSound(owner, cfg, before.cache, answers[n - 1].value, |answers[n - 1].value|);
      }
    }
  }

  /**
   Transparency over whole runs.  Start from a sound cache, such as the empty one, and let
   any refreshes follow, with calls that may fail at any point, in which every vote account
   keeps its identity and every identity has one account at a time.  Then every entry of every
   refresh of the run is read exactly as by an unfiltered lookup, through key rotations and
   evictions.
   */
  lemma CacheIsTransparent(
    owner: string -> string, cfg: Config, v: View, answers: seq<Answer<seq<Entry>>>, n: nat, k: nat)
    requires n < |answers| && answers[n].Ok? && k < |answers[n].value|
    requires CacheSound(owner, v.cache) && UniqueIPs(cfg.peers)
    requires forall i :: 0 <= i < |answers| && answers[i].Ok? ==> AllTruthful(owner, cfg, answers[i].value)
    ensures ReadingAt(cfg, ViewAfter(cfg, v, answers, n).cache, answers[n].value, k) == DirectReading(cfg, answers[n].value[k])
  {
    RunKeepsCacheSound(owner, cfg, v, answers, n);
    var cache := ViewAfter(cfg, v, answers, n).cache;
    TruthIsUnmisled(owner, cfg, cache, answers[n].value);
    ReadingIsDirect(cfg, cache, answers[n].value, k);
  }

  /** With truthful answers a permutation of the node list is read alike. */
  lemma PermutationReadsAlike(owner: string -> string, cfg: Config, v: View, es: seq<Entry>, fs: seq<Entry>)
    requires UniqueIPs(cfg.peers) && CacheSound(owner, v.cache)
    requires AllTruthful(owner, cfg, es) && multiset(es) == multiset(fs)
    ensures AllTruthful(owner, cfg, fs) && Readings(cfg, v.cache, es) == Readings(cfg, v.cache, fs)
  {
    forall e ensures e in es <==> e in fs {
      assert e in multiset(es) <==> e in multiset(fs);
    }
    TruthIsUnmisled(owner, cfg, v.cache, es);
    TruthIsUnmisled(owner, cfg, v.cache, fs);
    ReadingsAreDirect(cfg, v.cache, es);
    ReadingsAreDirect(cfg, v.cache, fs);
    assert (set e | e in es :: DirectReading(cfg, e)) == set e | e in fs :: DirectReading(cfg, e);
  }

  /**
   With truthful answers any permutation of the node list gives the same roles, the same
   count and the same delinquency flag, and tells alike whether anybody leads from outside.
   */
  lemma PermutationDoesNotMatter(owner: string -> string, cfg: Config, v: View, es: seq<Entry>, fs: seq<Entry>)
    requires UniqueIPs(cfg.peers) && CacheSound(owner, v.cache)
    requires AllTruthful(owner, cfg, es) && multiset(es) == multiset(fs)
    ensures var a, b := Refreshed(cfg, v, Ok(es)), Refreshed(cfg, v, Ok(fs));
            && a.peers.Keys == b.peers.Keys
            && (forall n :: n in a.peers ==> a.peers[n].lastSeenActive == b.peers[n].lastSeenActive)
            && a.missing == b.missing && a.count == b.count && a.delinquent == b.delinquent
            && a.undeclared.lastSeenActive == b.undeclared.lastSeenActive
  {
    PermutationReadsAlike(owner, cfg, v, es, fs);
    OrderDoesNotMatter(cfg, v, es, fs);
  }

  /**
   Why one account per identity is needed: with two, the cached key of the healthy one hides
   a delinquency that the unfiltered lookup reports.
   */
  lemma TwoAccountsBreakTransparency()
    ensures var table := VoteTable([VoteAccount("A", "v1")], [VoteAccount("A", "v2")]);
            var p := Probe((q: Option<string>) => if q.None? then Ok(table) else Ok(Filtered(table, q.value)), Ok(RENT_EXEMPT_MINIMUM + 1));
            && Honest(p)
            && Judge(map["A" := "v1"], "A", p).voting && !Judge(map["A" := "v1"], "A", p).delinquent
            && !Judge(map[], "A", p).voting && Judge(map[], "A", p).delinquent
  {
    assert Keep([VoteAccount("A", "v1")], "v1") == [VoteAccount("A", "v1")];
    assert Keep([VoteAccount("A", "v2")], "v1") == [];
  }

  // ---------------------------------------------------------------- steady answers within one refresh

  /** All entries under the active key are judged by the same honest answers. */
  ghost predicate Steady(cfg: Config, es: seq<Entry>)
  {
    && (forall e :: e in es && e.node.pubkey == cfg.activePubkey ==> Honest(e.probe))
    && (forall e, f :: e in es && f in es && e.node.pubkey == f.node.pubkey == cfg.activePubkey ==>
          e.probe.votes(None) == f.probe.votes(None) && e.probe.balance == f.probe.balance)
  }

  /** After an unfiltered answer the account found, if any, is cached; the filtered answer then finds it again. */
  lemma JudgingAgainAfterUnfiltered(cache: map<string, string>, pubkey: string, q: Probe)
    requires Honest(q) && q.votes(None).Ok?
    requires pubkey !in cache
    ensures var w := Weigh(q.votes(None).value, q.balance, pubkey);
            var after := if w.account.Some? then cache[pubkey := w.account.value.votePubkey] else cache;
            Judge(after, pubkey, q) == Verdict(w.voting, w.delinquent, after)
  {
    var table := q.votes(None).value;
    var w := Weigh(table, q.balance, pubkey);
    if w.account.Some? {
      var k := w.account.value.votePubkey;
      FindFinds(table.current, pubkey);
      FindFinds(table.delinquent, pubkey);
      FilteredByOwnKey(table, k, pubkey, q.balance);
      KeepSelects(table.current, k);
      KeepSelects(table.delinquent, k);
      assert w.account.value in Filtered(table, k).current || w.account.value in Filtered(table, k).delinquent;
      assert q.votes(Some(k)) == Ok(Filtered(table, k));
    }
  }

  /** A filtered answer only holds accounts under the cached key, so it leaves the cache as it is. */
  lemma JudgingAgainAfterFiltered(cache: map<string, string>, pubkey: string, p: Probe)
    requires Honest(p) && p.votes(None).Ok?
    requires pubkey in cache && Filtered(p.votes(None).value, cache[pubkey]) != VoteTable([], [])
    ensures Judge(cache, pubkey, p).cache == cache
  {
    var table, k := p.votes(None).value, cache[pubkey];
    assert p.votes(Some(k)) == Ok(Filtered(table, k));
    KeepSelects(table.current, k);
    KeepSelects(table.delinquent, k);
    FindFinds(Keep(table.current, k), pubkey);
    FindFinds(Keep(table.delinquent, k), pubkey);
    var w := Weigh(Filtered(table, k), p.balance, pubkey);
    assert w.account.Some? ==> w.account.value.votePubkey == k;
    assert cache[pubkey := k] == cache;
  }

  lemma SameAnswersSameVerdict(cache: map<string, string>, pubkey: string, p: Probe, q: Probe)
    requires Honest(p) && Honest(q)
    requires p.votes(None) == q.votes(None) && p.balance == q.balance
    ensures Judge(cache, pubkey, p) == Judge(cache, pubkey, q)
  {
    if pubkey in cache {
      assert p.votes(Some(cache[pubkey])) == q.votes(Some(cache[pubkey]));
    }
  }

  /** Judging again by the same answers repeats the verdict and leaves the cache as it is. */
  lemma JudgingAgain(cache: map<string, string>, pubkey: string, p: Probe, q: Probe)
    requires Honest(p) && Honest(q)
    requires p.votes(None) == q.votes(None) && p.balance == q.balance
    ensures Judge(Judge(cache, pubkey, p).cache, pubkey, q) == Judge(cache, pubkey, p)
  {
    SameAnswersSameVerdict(Judge(cache, pubkey, p).cache, pubkey, p, q);
    if pubkey in cache {
      assert p.votes(Some(cache[pubkey])) ==
        (match p.votes(None) case Failed => Failed case Ok(table) => Ok(Filtered(table, cache[pubkey])));
    }
    if p.votes(None).Ok? {
      if pubkey in cache && Filtered(p.votes(None).value, cache[pubkey]) != VoteTable([], []) {
        JudgingAgainAfterFiltered(cache, pubkey, p);
      } else {
        JudgingAgainAfterUnfiltered(cache - {pubkey}, pubkey, p);
        assert pubkey !in cache ==> cache - {pubkey} == cache;
      }
    }
  }

  lemma {:induction false} SteadyFrom(cfg: Config, cache: map<string, string>, es: seq<Entry>, i: nat, n: nat)
    requires i < n <= |es| && Steady(cfg, es) && es[i].node.pubkey == cfg.activePubkey
    ensures Judge(CacheUpTo(cfg, cache, es, n), cfg.activePubkey, es[i].probe)
         == Judge(CacheUpTo(cfg, cache, es, i), cfg.activePubkey, es[i].probe)
    ensures CacheUpTo(cfg, cache, es, n) == CacheUpTo(cfg, cache, es, i + 1)
  {
    var p := es[i].probe;
    assert es[i] in es;
    JudgingAgain(CacheUpTo(cfg, cache, es, i), cfg.activePubkey, p, p);
    if i + 1 < n {
      SteadyFrom(cfg, cache, es, i, n - 1);
      if es[n - 1].node.pubkey == cfg.activePubkey {
        assert es[n - 1] in es;
        JudgingAgain(CacheUpTo(cfg, cache, es, i), cfg.activePubkey, p, es[n - 1].probe);
      }
    }
  }

  /** In a steady refresh any two entries under the active key get the same verdict. */
  lemma SteadyVerdictsAgree(cfg: Config, cache: map<string, string>, es: seq<Entry>, i: nat, j: nat)
    requires i < j < |es| && Steady(cfg, es)
    requires es[i].node.pubkey == es[j].node.pubkey == cfg.activePubkey
    ensures ReadingAt(cfg, cache, es, i).leads == ReadingAt(cfg, cache, es, j).leads
    ensures ReadingAt(cfg, cache, es, i).flags == ReadingAt(cfg, cache, es, j).flags
  {
    assert es[i] in es && es[j] in es;
    SteadyFrom(cfg, cache, es, i, j);
    JudgingAgain(CacheUpTo(cfg, cache, es, i), cfg.activePubkey, es[i].probe, es[j].probe);
  }

  lemma {:induction false} ReadingIndex(cfg: Config, cache: map<string, string>, es: seq<Entry>, n: nat, r: Reading) returns (k: nat)
    requires n <= |es| && r in ReadingsUpTo(cfg, cache, es, n)
    ensures k < n && ReadingAt(cfg, cache, es, k) == r
  {
    if r == ReadingAt(cfg, cache, es, n - 1) {
      k := n - 1;
    } else {
      k := ReadingIndex(cfg, cache, es, n - 1, r);
    }
  }

  /** A refresh in which nobody is accused does not raise the flag, whatever is cached. */
  lemma UnaccusedRaisesNoFlag(cfg: Config, cache: map<string, string>, es: seq<Entry>)
    requires forall e :: e in es && e.node.pubkey == cfg.activePubkey ==> Unaccusing(cfg.activePubkey, e.probe)
    ensures !FlaggedIn(Readings(cfg, cache, es))
  {
    forall r | r in Readings(cfg, cache, es) ensures !r.flags {
      var k := ReadingIndex(cfg, cache, es, |es|, r);
      assert es[k] in es;
      VerdictMeaning(CacheUpTo(cfg, cache, es, k), es[k].node.pubkey, es[k].probe);
    }
  }

  lemma SteadyNeverSplits(cfg: Config, cache: map<string, string>, es: seq<Entry>)
    requires Steady(cfg, es)
    ensures !(FlaggedIn(Readings(cfg, cache, es)) && LedIn(Readings(cfg, cache, es)))
  {
    var rs := Readings(cfg, cache, es);
    ReadingsLeadUnderActiveKey(cfg, cache, es, |es|);
    if q, r :| q in rs && q.flags && r in rs && r.leads {
      var i := ReadingIndex(cfg, cache, es, |es|, q);
      var j := ReadingIndex(cfg, cache, es, |es|, r);
      if i < j {
        SteadyVerdictsAgree(cfg, cache, es, i, j);
      } else if j < i {
        SteadyVerdictsAgree(cfg, cache, es, j, i);
      }
    }
  }

  /**
   The delinquency fast path is sound under steady answers: a raised flag means that this
   very refresh recorded no active peer, declared or not, and counted a leaderless sample.
   */
  lemma FlagMeansLeaderless(cfg: Config, v: View, es: seq<Entry>)
    requires UniqueIPs(cfg.peers) && Steady(cfg, es)
    requires Refreshed(cfg, v, Ok(es)).delinquent
    ensures var w := Refreshed(cfg, v, Ok(es));
            !HasActivePeer(w) && !HasUndeclared(w) && w.count == v.count + 1
  {
    RefreshRefinesReadings(cfg, v, es);
    SteadyNeverSplits(cfg, v.cache, es);
    ActiveMeansLed(cfg, v, es);
  }

  /** The flag says something about the latest refresh only: it is up exactly when that one raised it. */
  lemma FlagDoesNotSurvive(cfg: Config, v: View, answer: Answer<seq<Entry>>)
    requires UniqueIPs(cfg.peers)
    ensures Refreshed(cfg, v, answer).delinquent <==> answer.Ok? && FlaggedIn(Readings(cfg, v.cache, answer.value))
  {
    if answer.Ok? {
      RefreshRefinesReadings(cfg, v, answer.value);
    }
  }
}
