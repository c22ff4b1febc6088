/**
 The RPC client over several URLs: the order in which URLs are tried, and the retry loop
 that cools down the URLs that refuse.  What an endpoint replies, and when, is an input.
 */
module RpcClient {
  import opened Answers
  import opened Ordering

  /** The reply to one attempt; an error may carry a code of the JSON-RPC body or of HTTP. */
  datatype Reply<+T> = Success(value: T) | RPCError(code: int) | HTTPError(code: int) | OtherError

  /** The endpoint actively refused: forbidden, too many requests, or unavailable. */
  predicate Refused<T>(reply: Reply<T>)
  {
    (reply.RPCError? || reply.HTTPError?) && reply.code in {403, 429, 503}
  }

  datatype Memory = Memory(last: string, cooldowns: map<string, int>)

  predicate Cooling(m: Memory, url: string, now: int)
  {
    url in m.cooldowns && m.cooldowns[url] > now
  }

  function Pick(urls: seq<string>, wanted: string -> bool): seq<string>
  {
    if urls == [] then []
    else Pick(urls[..|urls| - 1], wanted) + if wanted(urls[|urls| - 1]) then [urls[|urls| - 1]] else []
  }

  function Fresh(m: Memory, now: int): string -> bool
  {
    url => url != m.last && !Cooling(m, url, now)
  }

  function CoolingDown(m: Memory, now: int): string -> bool
  {
    url => url != m.last && Cooling(m, url, now)
  }

  /** The URLs in the order in which they are tried. */
  function TryOrder(urls: seq<string>, m: Memory, now: int): seq<string>
  {
    if |urls| <= 1 then urls
    else
      var fallback := if m.last == "" then [] else [m.last];
      var lastCools := m.last in urls && Cooling(m, m.last, now);
      Pick(urls, Fresh(m, now)) + (if lastCools then [] else fallback)
        + Pick(urls, CoolingDown(m, now)) + (if lastCools then fallback else [])
  }

  /**
   The retry loop from attempt `k` on: `replies(k)` is what attempt `k` gets and `times(k)`
   the time at which it got it.
   */
  function TriedFrom<T>(order: seq<string>, m: Memory, cooldown: int, replies: nat -> Reply<T>, times: nat -> int, k: nat)
    : (Memory, Answer<T>)
    requires k <= |order|
    decreases |order| - k
  {
    if k == |order| then (m, Failed)
    else if replies(k).Success? then (m.(last := order[k]), Ok(replies(k).value))
    else
      var noted := if Refused(replies(k)) then m.(cooldowns := m.cooldowns[order[k] := times(k) + cooldown]) else m;
      TriedFrom(order, noted, cooldown, replies, times, k + 1)
  }

  class Client {
    const urls: seq<string>
    const clients: set<string>
    const urlCooldown: int
    var lastSuccessfulURL: string
    var urlCooldowns: map<string, int>

    ghost predicate Valid()
      reads this
    {
      clients == Elements(urls) && (lastSuccessfulURL == "" || lastSuccessfulURL in urls)
    }

    ghost function Now(): Memory
      reads this
    {
      Memory(lastSuccessfulURL, urlCooldowns)
    }

    constructor (urls: seq<string>, urlCooldown: int)
      ensures this.urls == urls && this.urlCooldown == urlCooldown
      ensures Valid() && Now() == Memory("", map[])
    {
      this.urls, this.urlCooldown := urls, urlCooldown;
      clients := set url | url in urls;
      lastSuccessfulURL, urlCooldowns := "", map[];
    }

    method GetURLsToTry(now: int) returns (result: seq<string>)
      ensures result == TryOrder(urls, Now(), now)
    {
      if |urls| <= 1 {
        return urls;
      }
      var activeURLs, coolingURLs: seq<string>, lastSuccessfulInCooldown := [], [], false;
      for i := 0 to |urls|
        invariant activeURLs == Pick(urls[..i], Fresh(Now(), now))
        invariant coolingURLs == Pick(urls[..i], CoolingDown(Now(), now))
        invariant lastSuccessfulInCooldown <==>
                    lastSuccessfulURL in urls[..i] && Cooling(Now(), lastSuccessfulURL, now)
      {
        var url := urls[i];
        assert urls[..i + 1] == urls[..i] + [url] && urls[..i + 1][..i] == urls[..i];
        var inCooldown := url in urlCooldowns && urlCooldowns[url] > now;
        if url == lastSuccessfulURL {
          lastSuccessfulInCooldown := inCooldown;
          continue;
        }
        if inCooldown {
          coolingURLs := coolingURLs + [url];
        } else {
          activeURLs := activeURLs + [url];
        }
      }
      assert urls[..|urls|] == urls;
      result := activeURLs;
      if lastSuccessfulURL != "" {
        if lastSuccessfulInCooldown {
          coolingURLs := coolingURLs + [lastSuccessfulURL];
        } else {
          result := result + [lastSuccessfulURL];
        }
      }
      return result + coolingURLs;
    }

    /** Tries the URLs in order until one answers. */
    method ExecuteWithRetry<T>(now: int, replies: nat -> Reply<T>, times: nat -> int) returns (answer: Answer<T>)
      requires Valid()
      modifies this`lastSuccessfulURL, this`urlCooldowns
      ensures Valid()
      ensures (Now(), answer) == TriedFrom(TryOrder(urls, old(Now()), now), old(Now()), urlCooldown, replies, times, 0)
    {
      var order := GetURLsToTry(now);
      OnlyConfigured(urls, Now(), now);
      for k := 0 to |order|
        invariant Valid()
        invariant TriedFrom(order, Now(), urlCooldown, replies, times, k)
               == TriedFrom(order, old(Now()), urlCooldown, replies, times, 0)
      {
        var url := order[k];
        if url !in clients {
          continue;
        }
        var reply := replies(k);
        if !reply.Success? {
          if Refused(reply) {
            urlCooldowns := urlCooldowns[url := times(k) + urlCooldown];
          }
          continue;
        }
        lastSuccessfulURL := url;
        return Ok(reply.value);
      }
      return Failed;
    }
  }

  // ---------------------------------------------------------------- the order

  lemma {:induction false} PickCounts(urls: seq<string>, wanted: string -> bool, x: string)
    ensures multiset(Pick(urls, wanted))[x] == if wanted(x) then multiset(urls)[x] else 0
  {
    if urls == [] {
    } else {
      PickCounts(urls[..|urls| - 1], wanted, x);
      assert urls == urls[..|urls| - 1] + [urls[|urls| - 1]];
    }
  }

  lemma InMultiset<T>(s: seq<T>, x: T)
    ensures x in s <==> multiset(s)[x] > 0
  {
  }

  /** How often each URL is tried: the last successful one once, all others as often as configured. */
  lemma TriedHowOften(urls: seq<string>, m: Memory, now: int, x: string)
    requires |urls| > 1
    ensures multiset(TryOrder(urls, m, now))[x]
         == if x != m.last then multiset(urls)[x] else if x == "" then 0 else 1
  {
    PickCounts(urls, Fresh(m, now), x);
    PickCounts(urls, CoolingDown(m, now), x);
  }

  /** As long as the last successful URL is a configured one, no other URL is ever tried. */
  lemma OnlyConfigured(urls: seq<string>, m: Memory, now: int)
    requires m.last == "" || m.last in urls
    ensures forall url :: url in TryOrder(urls, m, now) ==> url in urls
  {
    if |urls| > 1 {
      forall url | url in TryOrder(urls, m, now) ensures url in urls {
        TriedHowOften(urls, m, now, url);
        InMultiset(TryOrder(urls, m, now), url);
        InMultiset(urls, url);
      }
    }
  }

  lemma FewAreAllTried(urls: seq<string>, m: Memory, now: int)
    requires |urls| <= 1
    ensures TryOrder(urls, m, now) == urls
  {
  }

  /**
   The order is a permutation of the configured URLs exactly when there is at most one,
   or the last successful URL is configured exactly once, or nothing has succeeded yet and
   no URL is the empty string.
   */
  lemma PermutationExactly(urls: seq<string>, m: Memory, now: int)
    ensures multiset(TryOrder(urls, m, now)) == multiset(urls)
       <==> |urls| <= 1 || (if m.last == "" then "" !in urls else multiset(urls)[m.last] == 1)
  {
    hide TryOrder;
    if |urls| <= 1 {
      FewAreAllTried(urls, m, now);
    } else {
      forall x ensures multiset(TryOrder(urls, m, now))[x]
                    == if x != m.last then multiset(urls)[x] else if x == "" then 0 else 1
      {
        TriedHowOften(urls, m, now, x);
      }
      InMultiset(urls, "");
      if (m.last == "" && "" !in urls) || (m.last != "" && multiset(urls)[m.last] == 1) {
        assert multiset(TryOrder(urls, m, now)) == multiset(urls);
      } else {
        assert multiset(TryOrder(urls, m, now))[m.last] != multiset(urls)[m.last];
      }
    }
  }

  /** No configured URL is left out, exactly unless nothing has succeeded yet and some URL is empty. */
  lemma EveryURLIsTriedExactly(urls: seq<string>, m: Memory, now: int)
    requires m.last == "" || m.last in urls
    ensures Elements(TryOrder(urls, m, now)) == Elements(urls)
       <==> |urls| <= 1 || m.last != "" || "" !in urls
  {
    hide TryOrder;
    if |urls| <= 1 {
      FewAreAllTried(urls, m, now);
    } else {
      forall x ensures x in TryOrder(urls, m, now) <==> x in urls && (x != m.last || x != "") {
        TriedHowOften(urls, m, now, x);
        InMultiset(TryOrder(urls, m, now), x);
        InMultiset(urls, x);
      }
      assert "" in Elements(urls) <==> "" in urls;
    }
  }

  /** Fresh URLs first, then the last successful one, then the cooling ones; if it cools too it goes last. */
  function Tier(m: Memory, url: string, now: int): nat
  {
    if url == m.last then (if Cooling(m, url, now) then 3 else 1) else if Cooling(m, url, now) then 2 else 0
  }

  function PlaceOf(urls: seq<string>, url: string): (place: nat)
    requires url in urls
    ensures place < |urls| && urls[place] == url
    ensures forall i :: 0 <= i < place ==> urls[i] != url
  {
    if urls[0] == url then 0 else 1 + PlaceOf(urls[1..], url)
  }

  /** `a` is to be tried before `b`: by tier, and within a tier by place in the configuration. */
  predicate GoesFirst(urls: seq<string>, m: Memory, now: int, a: string, b: string)
    requires a in urls && b in urls
  {
    var s, t := Tier(m, a, now), Tier(m, b, now);
    s < t || (s == t && PlaceOf(urls, a) < PlaceOf(urls, b))
  }

  lemma {:induction false} PickKeepsOrder(urls: seq<string>, wanted: string -> bool, n: nat, i: nat, j: nat)
    requires Distinct(urls) && n <= |urls| && i < j < |Pick(urls[..n], wanted)|
    ensures var p := Pick(urls[..n], wanted);
            && p[i] in urls[..n] && p[j] in urls[..n] && wanted(p[i]) && wanted(p[j])
            && PlaceOf(urls, p[i]) < PlaceOf(urls, p[j])
  {
    var p, x := Pick(urls[..n], wanted), urls[n - 1];
    assert urls[..n][..n - 1] == urls[..n - 1];
    var before := Pick(urls[..n - 1], wanted);
    PickedAreWanted(urls[..n - 1], wanted);
    if j < |before| {
      PickKeepsOrder(urls, wanted, n - 1, i, j);
    } else {
      assert p[j] == x && p[i] == before[i] && before[i] in urls[..n - 1];
      var k :| 0 <= k < n - 1 && urls[k] == before[i];
      assert PlaceOf(urls, x) == n - 1 && PlaceOf(urls, before[i]) == k;
    }
  }

  lemma PickedAreWanted(urls: seq<string>, wanted: string -> bool)
    ensures forall url :: url in Pick(urls, wanted) ==> wanted(url) && url in urls
  {
    forall url | url in Pick(urls, wanted) ensures wanted(url) && url in urls {
      PickCounts(urls, wanted, url);
      InMultiset(Pick(urls, wanted), url);
      InMultiset(urls, url);
    }
  }

  /**
   With different, non-empty URLs the order is the configured URLs sorted by tier, and
   within a tier by their place in the configuration.
   */
  lemma TriedByTierAndPlace(urls: seq<string>, m: Memory, now: int, i: nat, j: nat)
    requires Distinct(urls) && "" !in urls && (m.last == "" || m.last in urls)
    requires i < j < |TryOrder(urls, m, now)|
    ensures var order := TryOrder(urls, m, now);
            order[i] in urls && order[j] in urls && GoesFirst(urls, m, now, order[i], order[j])
  {
    hide PlaceOf, Pick;
    var order := TryOrder(urls, m, now);
    OnlyConfigured(urls, m, now);
    assert urls[..|urls|] == urls;
    var first, cooling := Pick(urls, Fresh(m, now)), Pick(urls, CoolingDown(m, now));
    PickedAreWanted(urls, Fresh(m, now));
    PickedAreWanted(urls, CoolingDown(m, now));
    var start := |first| + if m.last != "" && !Cooling(m, m.last, now) then 1 else 0;
    if j < |first| {
      PickKeepsOrder(urls, Fresh(m, now), |urls|, i, j);
    } else if start <= i && j < start + |cooling| {
      assert order[i] == cooling[i - start] && order[j] == cooling[j - start];
      PickKeepsOrder(urls, CoolingDown(m, now), |urls|, i - start, j - start);
    }
  }

  // ---------------------------------------------------------------- one call

  /** Attempts before `k` failed and attempt `k` succeeded. */
  ghost predicate FirstSuccess<T>(replies: nat -> Reply<T>, from: nat, k: nat)
  {
    from <= k && replies(k).Success? && forall j: nat :: from <= j < k ==> !replies(j).Success?
  }

  /** The attempts a call makes: up to and including the first success, or all of them. */
  ghost predicate Reached<T>(replies: nat -> Reply<T>, from: nat, j: nat)
  {
    forall i: nat :: from <= i < j ==> !replies(i).Success?
  }

  /** A call returns the first success in order, and fails exactly if every attempt fails. */
  lemma {:induction false} ReturnsFirstSuccess<T>(
    order: seq<string>, m: Memory, cooldown: int, replies: nat -> Reply<T>, times: nat -> int, from: nat)
    requires from <= |order|
    ensures var (after, answer) := TriedFrom(order, m, cooldown, replies, times, from);
            && (answer.Failed? <==> forall k :: from <= k < |order| ==> !replies(k).Success?)
            && (answer.Failed? ==> after.last == m.last)
            && (forall k: nat :: k < |order| && FirstSuccess(replies, from, k) ==>
                  answer == Ok(replies(k).value) && after.last == order[k])
    decreases |order| - from
  {
    if from < |order| && !replies(from).Success? {
      var noted := if Refused(replies(from)) then m.(cooldowns := m.cooldowns[order[from] := times(from) + cooldown]) else m;
      ReturnsFirstSuccess(order, noted, cooldown, replies, times, from + 1);
      forall k: nat | k < |order| && FirstSuccess(replies, from, k) ensures FirstSuccess(replies, from + 1, k) {
        assert k != from;
      }
    }
  }

  ghost predicate SameCooldown(a: Memory, b: Memory, url: string)
  {
    (url in a.cooldowns <==> url in b.cooldowns) && (url in a.cooldowns ==> a.cooldowns[url] == b.cooldowns[url])
  }

  /**
   The cooldown of a URL after a call: `cooldown` from its last refusal among the attempts
   made, and what it was before if it was not refused.
   */
  lemma {:induction false} OnlyRefusedCool<T>(
    order: seq<string>, m: Memory, cooldown: int, replies: nat -> Reply<T>, times: nat -> int, from: nat, url: string)
    requires from <= |order|
    ensures var (after, answer) := TriedFrom(order, m, cooldown, replies, times, from);
            && (SameCooldown(after, m, url)
                || exists j: nat :: from <= j < |order| && Reached(replies, from, j) && order[j] == url
                                 && Refused(replies(j))
                                 && url in after.cooldowns && after.cooldowns[url] == times(j) + cooldown)
            && (Distinct(order) ==>
                  forall j: nat :: from <= j < |order| && Reached(replies, from, j) && order[j] == url && Refused(replies(j)) ==>
                    url in after.cooldowns && after.cooldowns[url] == times(j) + cooldown)
            && ((forall j :: from <= j < |order| ==> order[j] != url) ==> SameCooldown(after, m, url))
    decreases |order| - from
  {
    if from < |order| && !replies(from).Success? {
      var noted := if Refused(replies(from)) then m.(cooldowns := m.cooldowns[order[from] := times(from) + cooldown]) else m;
      OnlyRefusedCool(order, noted, cooldown, replies, times, from + 1, url);
      assert forall j: nat :: from < j && Reached(replies, from, j) <==> from < j && Reached(replies, from + 1, j);
      assert Reached(replies, from, from);
    }
  }

  // ---------------------------------------------------------------- any sequence of calls

  datatype Call<!T> = Call(now: int, replies: nat -> Reply<T>, times: nat -> int)

  ghost function AfterCalls<T>(urls: seq<string>, cooldown: int, calls: seq<Call<T>>, n: nat): Memory
    requires n <= |calls|
  {
    if n == 0 then Memory("", map[])
    else
      var m, call := AfterCalls(urls, cooldown, calls, n - 1), calls[n - 1];
      TriedFrom(TryOrder(urls, m, call.now), m, cooldown, call.replies, call.times, 0).0
  }

  lemma {:induction false} LastComesFromOrder<T>(
    order: seq<string>, m: Memory, cooldown: int, replies: nat -> Reply<T>, times: nat -> int, from: nat)
    requires from <= |order|
    ensures var after := TriedFrom(order, m, cooldown, replies, times, from).0; after.last == m.last || after.last in order
    decreases |order| - from
  {
    if from < |order| && !replies(from).Success? {
      var noted := if Refused(replies(from)) then m.(cooldowns := m.cooldowns[order[from] := times(from) + cooldown]) else m;
      LastComesFromOrder(order, noted, cooldown, replies, times, from + 1);
    }
  }

  /** After any calls, the last successful URL is a configured one, if there is any. */
  lemma {:induction false} LastStaysConfigured<T>(urls: seq<string>, cooldown: int, calls: seq<Call<T>>, n: nat)
    requires n <= |calls|
    ensures var last := AfterCalls(urls, cooldown, calls, n).last; last == "" || last in urls
  {
    if n == 0 {
    } else {
      LastStaysConfigured(urls, cooldown, calls, n - 1);
      var m, call := AfterCalls(urls, cooldown, calls, n - 1), calls[n - 1];
      OnlyConfigured(urls, m, call.now);
      LastComesFromOrder(TryOrder(urls, m, call.now), m, cooldown, call.replies, call.times, 0);
    }
  }

  /**
   Failover over any sequence of calls: with different, non-empty URLs, the next call
   fails only after every configured URL has been tried, each exactly once, and failed.
   */
  lemma FailsOnlyAfterAll<T>(urls: seq<string>, cooldown: int, calls: seq<Call<T>>, next: Call<T>)
    requires Distinct(urls) && "" !in urls
    ensures var m := AfterCalls(urls, cooldown, calls, |calls|);
            var order := TryOrder(urls, m, next.now);
            && multiset(order) == multiset(urls)
            && (TriedFrom(order, m, cooldown, next.replies, next.times, 0).1.Failed? <==>
                  forall k :: 0 <= k < |urls| ==> !next.replies(k).Success?)
  {
    LastStaysConfigured(urls, cooldown, calls, |calls|);
    var m := AfterCalls(urls, cooldown, calls, |calls|);
    PermutationExactly(urls, m, next.now);
    if m.last != "" {
      DistinctMultiset(urls, m.last);
      InMultiset(urls, m.last);
    }
    var order := TryOrder(urls, m, next.now);
    assert |order| == |multiset(order)| == |urls|;
    ReturnsFirstSuccess(order, m, cooldown, next.replies, next.times, 0);
  }

  // ---------------------------------------------------------------- refusals over any sequence of calls

  /** The endpoint said that it is forbidden, that there were too many requests, or that it is unavailable. */
  predicate RefusesByCode<T>(reply: Reply<T>)
  {
    match reply
    case RPCError(code) => code == 403 || code == 429 || code == 503
    case HTTPError(code) => code == 403 || code == 429 || code == 503
    case _ => false
  }

  /** The call reached the URL, was refused there, and that was at time `t`. */
  ghost predicate RefusedIn<T>(order: seq<string>, call: Call<T>, url: string, t: int)
  {
    exists j: nat :: j < |order| && Reached(call.replies, 0, j) && order[j] == url && RefusesByCode(call.replies(j)) && call.times(j) == t
  }

  ghost function RefusalIn<T>(order: seq<string>, call: Call<T>, url: string): Option<int>
  {
    if exists t :: RefusedIn(order, call, url, t) then
      var t :| RefusedIn(order, call, url, t);
      Some(t)
    else None
  }

  /** When the URL was last refused, if it ever was. */
  ghost function LastRefusal<T>(urls: seq<string>, cooldown: int, calls: seq<Call<T>>, n: nat, url: string): Option<int>
    requires n <= |calls|
  {
    if n == 0 then None
    else
      var call, m := calls[n - 1], AfterCalls(urls, cooldown, calls, n - 1);
      var refusal := RefusalIn(TryOrder(urls, m, call.now), call, url);
      if refusal.Some? then refusal else LastRefusal(urls, cooldown, calls, n - 1, url)
  }

  lemma OrderIsDistinct<T>(urls: seq<string>, cooldown: int, calls: seq<Call<T>>, n: nat, now: int)
    requires Distinct(urls) && "" !in urls && n <= |calls|
    ensures var order := TryOrder(urls, AfterCalls(urls, cooldown, calls, n), now);
            Distinct(order) && multiset(order) == multiset(urls)
  {
    LastStaysConfigured(urls, cooldown, calls, n);
    var m := AfterCalls(urls, cooldown, calls, n);
    PermutationExactly(urls, m, now);
    if m.last != "" {
      DistinctMultiset(urls, m.last);
      InMultiset(urls, m.last);
    }
    SameElements(TryOrder(urls, m, now), urls);
  }

  /** One call, told by the codes: a URL that was refused at `t` cools until `t + cooldown`, any other is left as it was. */
  lemma RefusalSetsCooldown<T>(order: seq<string>, m: Memory, cooldown: int, call: Call<T>, url: string)
    requires Distinct(order)
    ensures var after := TriedFrom(order, m, cooldown, call.replies, call.times, 0).0;
            match RefusalIn(order, call, url)
            case Some(t) => url in after.cooldowns && after.cooldowns[url] == t + cooldown
            case None => SameCooldown(after, m, url)
  {
    OnlyRefusedCool(order, m, cooldown, call.replies, call.times, 0, url);
    forall j: nat ensures Refused(call.replies(j)) <==> RefusesByCode(call.replies(j)) {
    }
    forall j: nat | j < |order| && Reached(call.replies, 0, j) && order[j] == url && Refused(call.replies(j))
      ensures RefusedIn(order, call, url, call.times(j))
    {
    }
  }

  /** Over any sequence of calls, a URL cools from its last refusal on, and only if it was ever refused. */
  lemma {:induction false} CooldownsOverCalls<T>(urls: seq<string>, cooldown: int, calls: seq<Call<T>>, n: nat, url: string)
    requires Distinct(urls) && "" !in urls && n <= |calls|
    ensures var m, last := AfterCalls(urls, cooldown, calls, n), LastRefusal(urls, cooldown, calls, n, url);
            && (url in m.cooldowns <==> last.Some?)
            && (last.Some? ==> m.cooldowns[url] == last.value + cooldown)
  {
    hide TryOrder, TriedFrom, RefusalIn;
    if n == 0 {
    } else {
      CooldownsOverCalls(urls, cooldown, calls, n - 1, url);
      var m, call := AfterCalls(urls, cooldown, calls, n - 1), calls[n - 1];
      OrderIsDistinct(urls, cooldown, calls, n - 1, call.now);
      RefusalSetsCooldown(TryOrder(urls, m, call.now), m, cooldown, call, url);
    }
  }

  /** The URL was refused less than a cooldown ago. */
  ghost predicate Pending<T>(urls: seq<string>, cooldown: int, calls: seq<Call<T>>, n: nat, url: string, now: int)
    requires n <= |calls|
  {
    var last := LastRefusal(urls, cooldown, calls, n, url);
    last.Some? && now < last.value + cooldown
  }

  /** Fresh URLs come first, then the last successful one, then the pending ones; pending and last successful comes last. */
  function Rung(last: bool, pending: bool): nat
  {
    if last then (if pending then 3 else 1) else if pending then 2 else 0
  }

  /**
   The order over any sequence of calls, exactly: of two different URLs the one is tried
   before the other if and only if it stands on a lower rung, or on the same one and before
   it in the configuration.  A refused URL is pending exactly while its cooldown runs.
   */
  lemma OrderOverCallsExactly<T>(urls: seq<string>, cooldown: int, calls: seq<Call<T>>, now: int, i: nat, j: nat)
    requires Distinct(urls) && "" !in urls
    requires var order := TryOrder(urls, AfterCalls(urls, cooldown, calls, |calls|), now); i < |order| && j < |order| && i != j
    ensures var m := AfterCalls(urls, cooldown, calls, |calls|);
            var u, v := TryOrder(urls, m, now)[i], TryOrder(urls, m, now)[j];
            var a := Rung(u == m.last, Pending(urls, cooldown, calls, |calls|, u, now));
            var b := Rung(v == m.last, Pending(urls, cooldown, calls, |calls|, v, now));
            && u in urls && v in urls
            && (i < j <==> a < b || (a == b && PlaceOf(urls, u) < PlaceOf(urls, v)))
  {
    hide TryOrder, AfterCalls, LastRefusal, PlaceOf;
    var m := AfterCalls(urls, cooldown, calls, |calls|);
    var order := TryOrder(urls, m, now);
    LastStaysConfigured(urls, cooldown, calls, |calls|);
    CooldownsOverCalls(urls, cooldown, calls, |calls|, order[i]);
    CooldownsOverCalls(urls, cooldown, calls, |calls|, order[j]);
    TriedByTierAndPlace(urls, m, now, if i < j then i else j, if i < j then j else i);
  }

  /**
   So a refused URL goes behind every fresh one for as long as its cooldown runs, and from
   then on it is back among them in its configured place, ahead of the last successful URL.
   */
  lemma CooldownRunsOut<T>(urls: seq<string>, cooldown: int, calls: seq<Call<T>>, now: int, i: nat, j: nat, t: int)
    requires Distinct(urls) && "" !in urls
    requires var order := TryOrder(urls, AfterCalls(urls, cooldown, calls, |calls|), now); i < |order| && j < |order| && i != j
    requires var m := AfterCalls(urls, cooldown, calls, |calls|);
             TryOrder(urls, m, now)[i] != m.last
             && LastRefusal(urls, cooldown, calls, |calls|, TryOrder(urls, m, now)[i]) == Some(t)
    ensures var m := AfterCalls(urls, cooldown, calls, |calls|);
            var u, v := TryOrder(urls, m, now)[i], TryOrder(urls, m, now)[j];
            && (v != m.last && !Pending(urls, cooldown, calls, |calls|, v, now) ==>
                  u in urls && v in urls && (j < i <==> now < t + cooldown || PlaceOf(urls, v) < PlaceOf(urls, u)))
            && (v == m.last && !Pending(urls, cooldown, calls, |calls|, v, now) ==> (i < j <==> t + cooldown <= now))
  {
    hide TryOrder, AfterCalls, LastRefusal, PlaceOf;
    OrderOverCallsExactly(urls, cooldown, calls, now, i, j);
    OrderOverCallsExactly(urls, cooldown, calls, now, j, i);
  }
}
