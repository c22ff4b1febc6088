/**
 The replay of a failover: the recordings of several nodes are merged into one timeline,
 and the downtime is read off it.  Times are nanoseconds; 0 is Go's zero time, which
 stands for a missing time stamp.
 */
module Replay {
  import opened Answers
  import opened Durations
  import opened Ordering

  datatype Sample = Sample(at: int, leaderlessCount: int, delinquent: bool, rpcError: bool)

  datatype TimelineEntry = TimelineEntry(at: int, event: string, detail: string)

  datatype Recording = Recording(nodeName: string, nodeIP: string, samples: seq<Sample>, timeline: seq<TimelineEntry>)

  datatype Entry =
    | SampleEntry(at: int, nodeName: string, nodeIP: string, sample: Sample)
    | EventEntry(at: int, nodeName: string, nodeIP: string, event: string, detail: string)

  datatype ReplayData = ReplayData(entries: seq<Entry>, downtime: Option<int>)

  const CONFIRMED_ACTIVE := "confirmed_active"

  // ---------------------------------------------------------------- the merged timeline

  function EntryOfSample(r: Recording, s: Sample): Entry
  {
    SampleEntry(s.at, r.nodeName, r.nodeIP, s)
  }

  function EntryOfEvent(r: Recording, t: TimelineEntry): Entry
  {
    EventEntry(t.at, r.nodeName, r.nodeIP, t.event, t.detail)
  }

  function EntriesOf(r: Recording): (es: seq<Entry>)
  {
    seq(|r.samples|, i requires 0 <= i < |r.samples| => EntryOfSample(r, r.samples[i]))
    + seq(|r.timeline|, i requires 0 <= i < |r.timeline| => EntryOfEvent(r, r.timeline[i]))
  }

  function AllEntries(rs: seq<Recording>): seq<Entry>
  {
    if rs == [] then [] else AllEntries(rs[..|rs| - 1]) + EntriesOf(rs[|rs| - 1])
  }

  /** By time; at one instant events before samples, then by node name. */
  predicate EntryBefore(a: Entry, b: Entry)
  {
    if a.at == b.at then
      if a.EventEntry? != b.EventEntry? then a.EventEntry? else StrLess(a.nodeName, b.nodeName)
    else a.at < b.at
  }

  /** A timeline of the recordings: all their entries, in order. */
  ghost predicate Merges(es: seq<Entry>, rs: seq<Recording>)
  {
    multiset(es) == multiset(AllEntries(rs)) && Sorted(EntryBefore, es)
  }

  // ---------------------------------------------------------------- the downtime

  datatype Gauge = Gauge(inStreak: bool, start: int, end: int)

  function Gauged(g: Gauge, e: Entry): Gauge
  {
    match e
    case SampleEntry(at, _, _, sample) =>
      if sample.leaderlessCount != 0 then g.(inStreak := true)
      else if !g.inStreak then g.(start := at)
      else if g.end == 0 then g.(end := at) else g
    case EventEntry(at, _, _, event, _) =>
      if event == CONFIRMED_ACTIVE then g.(end := at) else g
  }

  function GaugeAt(es: seq<Entry>, n: nat): Gauge
    requires n <= |es|
  {
    if n == 0 then Gauge(false, 0, 0) else Gauged(GaugeAt(es, n - 1), es[n - 1])
  }

  function DowntimeOf(es: seq<Entry>): Option<int>
  {
    var g := GaugeAt(es, |es|);
    if g.start != 0 && g.end != 0 then Some(RoundTo(g.end - g.start, MILLISECOND)) else None
  }

  // ---------------------------------------------------------------- loading

  method Collect(rs: seq<Recording>) returns (entries: seq<Entry>)
    ensures entries == AllEntries(rs)
  {
    entries := [];
    for k := 0 to |rs|
      invariant entries == AllEntries(rs[..k])
    {
      var r := rs[k];
      ghost var before := entries;
      assert rs[..k + 1][..k] == rs[..k];
      for i := 0 to |r.samples|
        invariant entries == before + EntriesOf(r)[..i]
      {
        entries := entries + [EntryOfSample(r, r.samples[i])];
      }
      for i := 0 to |r.timeline|
        invariant entries == before + EntriesOf(r)[..|r.samples| + i]
      {
        entries := entries + [EntryOfEvent(r, r.timeline[i])];
      }
      assert entries == before + EntriesOf(r);
    }
    assert rs[..|rs|] == rs;
  }

  method MeasureDowntime(entries: seq<Entry>) returns (downtime: Option<int>)
    ensures downtime == DowntimeOf(entries)
  {
    var downtimeStart, downtimeEnd, inStreak := 0, 0, false;
    for i := 0 to |entries|
      invariant GaugeAt(entries, i) == Gauge(inStreak, downtimeStart, downtimeEnd)
    {
      var e := entries[i];
      if e.SampleEntry? {
        if e.sample.leaderlessCount == 0 {
          if !inStreak {
            downtimeStart := e.at;
          } else if downtimeEnd == 0 {
            downtimeEnd := e.at;
          }
        } else {
          inStreak := true;
        }
      }
      if e.EventEntry? && e.event == CONFIRMED_ACTIVE {
        downtimeEnd := e.at;
      }
    }
    downtime := None;
    if downtimeStart != 0 && downtimeEnd != 0 {
      downtime := Some(RoundTo(downtimeEnd - downtimeStart, MILLISECOND));
    }
  }

  /** Merges the recordings; an error if there are none. */
  method LoadReplayData(rs: seq<Recording>) returns (data: Answer<ReplayData>)
    ensures data.Failed? <==> rs == []
    ensures data.Ok? ==> Merges(data.value.entries, rs) && data.value.downtime == DowntimeOf(data.value.entries)
  {
    if |rs| == 0 {
      return Failed;
    }
    var entries := Collect(rs);
    EntryBeforeOrders();
    entries := Sort(entries, EntryBefore);
    var downtime := MeasureDowntime(entries);
    return Ok(ReplayData(entries, downtime));
  }

  // ---------------------------------------------------------------- the order of the files

  lemma EntryBeforeOrders()
    ensures WeakOrder(EntryBefore)
  {
    StrLessIsTotal();
    hide StrLess;
  }

  /** Node names differ, and no node has two samples or two events at one instant. */
  ghost predicate Unambiguous(rs: seq<Recording>)
  {
    && (forall i, j :: 0 <= i < j < |rs| ==> rs[i].nodeName != rs[j].nodeName)
    && (forall i, j, k :: 0 <= i < |rs| && 0 <= j < k < |rs[i].samples| ==> rs[i].samples[j].at != rs[i].samples[k].at)
    && (forall i, j, k :: 0 <= i < |rs| && 0 <= j < k < |rs[i].timeline| ==> rs[i].timeline[j].at != rs[i].timeline[k].at)
  }

  lemma {:induction false} EntryOrigin(rs: seq<Recording>, e: Entry) returns (i: nat, j: nat)
    requires e in AllEntries(rs)
    ensures i < |rs|
    ensures e.SampleEntry? ==> j < |rs[i].samples| && e == EntryOfSample(rs[i], rs[i].samples[j])
    ensures e.EventEntry? ==> j < |rs[i].timeline| && e == EntryOfEvent(rs[i], rs[i].timeline[j])
  {
    var last := rs[|rs| - 1];
    if e in AllEntries(rs[..|rs| - 1]) {
      i, j := EntryOrigin(rs[..|rs| - 1], e);
    } else {
      var k :| 0 <= k < |EntriesOf(last)| && EntriesOf(last)[k] == e;
      i, j := |rs| - 1, if k < |last.samples| then k else k - |last.samples|;
    }
  }

  lemma UnambiguousHasNoTies(rs: seq<Recording>)
    requires Unambiguous(rs)
    ensures NoTies(EntryBefore, Elements(AllEntries(rs)))
  {
    forall a, b | a in AllEntries(rs) && b in AllEntries(rs) && a != b ensures EntryBefore(a, b) || EntryBefore(b, a) {
      if a.at == b.at && a.EventEntry? == b.EventEntry? {
        var i, j := EntryOrigin(rs, a);
        var k, l := EntryOrigin(rs, b);
        assert i == k ==> j == l;
        StrLessConnected(a.nodeName, b.nodeName);
      }
    }
  }

  lemma {:induction false} TakeOut(rs: seq<Recording>, k: nat)
    requires k < |rs|
    ensures multiset(AllEntries(rs)) == multiset(AllEntries(rs[..k] + rs[k + 1..])) + multiset(EntriesOf(rs[k]))
  {
    hide EntriesOf;
    var rest, most := rs[..k] + rs[k + 1..], rs[..|rs| - 1];
    if k == |rs| - 1 {
      assert rest == most;
    } else {
      TakeOut(most, k);
      assert rest[..|rest| - 1] == most[..k] + most[k + 1..];
      assert rest[|rest| - 1] == rs[|rs| - 1] && most[k] == rs[k];
    }
  }

  lemma TakenOut<T>(s: seq<T>, k: nat)
    requires k < |s|
    ensures multiset(s[..k] + s[k + 1..]) == multiset(s) - multiset{s[k]}
  {
    assert s == s[..k] + [s[k]] + s[k + 1..];
  }

  /** The entries, as a multiset, do not depend on the order of the files. */
  lemma {:induction false} SameFilesSameEntries(rs: seq<Recording>, ts: seq<Recording>)
    requires multiset(rs) == multiset(ts)
    ensures multiset(AllEntries(rs)) == multiset(AllEntries(ts))
    decreases |rs|
  {
    if rs == [] {
      assert |multiset(ts)| == 0;
    } else {
      var last := rs[|rs| - 1];
      assert last in multiset(ts);
      var k :| 0 <= k < |ts| && ts[k] == last;
      TakeOut(rs, |rs| - 1);
      TakeOut(ts, k);
      TakenOut(rs, |rs| - 1);
      TakenOut(ts, k);
      SameFilesSameEntries(rs[..|rs| - 1] + rs[|rs|..], ts[..k] + ts[k + 1..]);
    }
  }

  /** Without ambiguous entries there is one timeline, and so one downtime, for any order of the files. */
  lemma FileOrderDoesNotMatter(rs: seq<Recording>, ts: seq<Recording>, es: seq<Entry>, fs: seq<Entry>)
    requires Unambiguous(rs) && multiset(rs) == multiset(ts)
    requires Merges(es, rs) && Merges(fs, ts)
    ensures es == fs && DowntimeOf(es) == DowntimeOf(fs)
  {
    SameFilesSameEntries(rs, ts);
    UnambiguousHasNoTies(rs);
    MergeHasEntries(es, rs);
    EntryBeforeOrders();
    SortedIsUnique(EntryBefore, es, fs);
  }

  // ---------------------------------------------------------------- what is in a timeline, and in what order

  /** The entry is sample `j` of recording `i`, or its timeline entry `j`, with the name and the IP of its node. */
  ghost predicate ComesFrom(e: Entry, rs: seq<Recording>, i: nat, j: nat)
  {
    i < |rs|
    && match e
       case SampleEntry(at, name, ip, sample) =>
         && j < |rs[i].samples| && sample == rs[i].samples[j]
         && at == sample.at && name == rs[i].nodeName && ip == rs[i].nodeIP
       case EventEntry(at, name, ip, event, detail) =>
         && j < |rs[i].timeline| && TimelineEntry(at, event, detail) == rs[i].timeline[j]
         && name == rs[i].nodeName && ip == rs[i].nodeIP
  }

  lemma {:induction false} HasEvery(rs: seq<Recording>, e: Entry, i: nat, j: nat)
    requires ComesFrom(e, rs, i, j)
    ensures e in AllEntries(rs)
  {
    var last := rs[|rs| - 1];
    if i < |rs| - 1 {
      HasEvery(rs[..|rs| - 1], e, i, j);
    } else {
      assert e == EntriesOf(last)[if e.SampleEntry? then j else |last.samples| + j];
    }
  }

  function Size(rs: seq<Recording>): nat
  {
    if rs == [] then 0 else Size(rs[..|rs| - 1]) + |rs[|rs| - 1].samples| + |rs[|rs| - 1].timeline|
  }

  lemma {:induction false} AllEntriesSize(rs: seq<Recording>)
    ensures |AllEntries(rs)| == Size(rs)
  {
    if rs == [] {
    } else {
      AllEntriesSize(rs[..|rs| - 1]);
    }
  }

  /** A timeline holds exactly the samples and the timeline entries of the recordings, and as many. */
  lemma TimelineHoldsExactly(es: seq<Entry>, rs: seq<Recording>, e: Entry)
    requires Merges(es, rs)
    ensures e in es <==> exists i: nat, j: nat :: ComesFrom(e, rs, i, j)
    ensures |es| == Size(rs)
  {
    MergeHasEntries(es, rs);
    assert e in es <==> e in Elements(es);
    AllEntriesSize(rs);
    assert |es| == |multiset(es)| == |multiset(AllEntries(rs))|;
    if e in AllEntries(rs) {
      var i, j := EntryOrigin(rs, e);
      assert ComesFrom(e, rs, i, j);
    }
    if i: nat, j: nat :| ComesFrom(e, rs, i, j) {
      HasEvery(rs, e, i, j);
    }
  }

  /**
   The order of a timeline: of two entries the later one has no smaller time; at one instant
   no event follows a sample; and of two of a kind the later one's node name does not come
   before the other's at the first character in which they differ.
   */
  lemma TimelineOrder(es: seq<Entry>, rs: seq<Recording>, i: nat, j: nat)
    requires Merges(es, rs) && i < j < |es|
    ensures es[i].at <= es[j].at
    ensures es[i].at == es[j].at ==> !(es[i].SampleEntry? && es[j].EventEntry?)
    ensures es[i].at == es[j].at && es[i].EventEntry? == es[j].EventEntry? ==>
              forall k: nat :: !FirstAt(es[j].nodeName, es[i].nodeName, k)
  {
    StrLessMeaning(es[j].nodeName, es[i].nodeName);
    assert !EntryBefore(es[j], es[i]);
    hide StrLess, FirstAt;
  }

  // ---------------------------------------------------------------- ties

  lemma Swapped(es: seq<Entry>, i: nat, j: nat) returns (fs: seq<Entry>)
    requires i < j < |es|
    ensures fs == es[i := es[j]][j := es[i]] && multiset(fs) == multiset(es)
  {
    var half := es[i := es[j]];
    fs := half[j := es[i]];
    assert half[j] == es[j];
    assert multiset(half) == multiset(es) - multiset{es[i]} + multiset{es[j]};
    assert multiset(fs) == multiset(half) - multiset{es[j]} + multiset{es[i]};
  }

  /** Swapping two entries that tie leaves a timeline in order. */
  lemma SwapKeepsOrder(es: seq<Entry>, i: nat, j: nat)
    requires i < j < |es| && Sorted(EntryBefore, es)
    requires !EntryBefore(es[i], es[j]) && !EntryBefore(es[j], es[i])
    ensures Sorted(EntryBefore, es[i := es[j]][j := es[i]])
  {
    EntryBeforeOrders();
    var fs := es[i := es[j]][j := es[i]];
    hide EntryBefore;
    forall k, l | 0 <= k < l < |fs| ensures !EntryBefore(fs[l], fs[k]) {
      assert k < l ==> !EntryBefore(es[l], es[k]);
      assert k < i ==> !EntryBefore(es[i], es[k]) && !EntryBefore(es[j], es[k]);
      assert i < l ==> !EntryBefore(es[l], es[i]);
      assert j < l ==> !EntryBefore(es[l], es[j]);
      assert i < k < j ==> !EntryBefore(es[k], es[i]) && !EntryBefore(es[j], es[k]);
    }
  }

  lemma MergeExists(rs: seq<Recording>) returns (es: seq<Entry>)
    ensures Merges(es, rs)
  {
    EntryBeforeOrders();
    es := SortedPermutation(EntryBefore, AllEntries(rs));
  }

  /** Two entries that tie can be swapped, so there are two timelines. */
  lemma TieMakesTwo(rs: seq<Recording>, x: Entry, y: Entry) returns (es: seq<Entry>, fs: seq<Entry>)
    requires x in AllEntries(rs) && y in AllEntries(rs) && x != y && !EntryBefore(x, y) && !EntryBefore(y, x)
    ensures Merges(es, rs) && Merges(fs, rs) && es != fs
  {
    hide EntryBefore, AllEntries;
    es := MergeExists(rs);
    MergeHasEntries(es, rs);
    assert x in Elements(es) && y in Elements(es);
    var m :| 0 <= m < |es| && es[m] == x;
    var n :| 0 <= n < |es| && es[n] == y;
    var i, j := if m < n then m else n, if m < n then n else m;
    fs := Swapped(es, i, j);
    SwapKeepsOrder(es, i, j);
    assert fs[i] != es[i];
  }

  /**
   The timeline, exactly: recordings have one timeline if and only if no two different
   entries tie.  The sort is not stable, so ties may come out either way.
   */
  lemma OneTimelineExactly(rs: seq<Recording>)
    ensures (forall es, fs :: Merges(es, rs) && Merges(fs, rs) ==> es == fs)
       <==> NoTies(EntryBefore, Elements(AllEntries(rs)))
  {
    hide EntryBefore, AllEntries;
    EntryBeforeOrders();
    if NoTies(EntryBefore, Elements(AllEntries(rs))) {
      forall es, fs | Merges(es, rs) && Merges(fs, rs) ensures es == fs {
        MergeHasEntries(es, rs);
        SortedIsUnique(EntryBefore, es, fs);
      }
    } else {
      var x, y :| x in Elements(AllEntries(rs)) && y in Elements(AllEntries(rs)) && x != y && !EntryBefore(x, y) && !EntryBefore(y, x);
      var es, fs := TieMakesTwo(rs, x, y);
    }
  }

  lemma MergeHasEntries(es: seq<Entry>, rs: seq<Recording>)
    requires Merges(es, rs)
    ensures Elements(es) == Elements(AllEntries(rs))
  {
    forall e ensures e in es <==> e in AllEntries(rs) {
      assert e in multiset(es) <==> e in multiset(AllEntries(rs));
    }
  }

  // ---------------------------------------------------------------- what the downtime means

  predicate Led(e: Entry)
  {
    e.SampleEntry? && e.sample.leaderlessCount == 0
  }

  predicate Leaderless(e: Entry)
  {
    e.SampleEntry? && e.sample.leaderlessCount != 0
  }

  predicate Confirms(e: Entry)
  {
    e.EventEntry? && e.event == "confirmed_active"
  }

  ghost predicate StreakBefore(es: seq<Entry>, n: nat)
    requires n <= |es|
  {
    exists i :: 0 <= i < n && Leaderless(es[i])
  }

  /** Entry `k` is the last sample with a leader before the first leaderless one, among the first `n`. */
  ghost predicate LastLed(es: seq<Entry>, n: nat, k: nat)
    requires n <= |es|
  {
    && k < n && Led(es[k]) && !StreakBefore(es, k)
    && forall j :: k < j < n && Led(es[j]) ==> StreakBefore(es, j)
  }

  /** Entry `k` is a sample with a leader after a leaderless one. */
  ghost predicate Recovers(es: seq<Entry>, k: nat)
    requires k < |es|
  {
    Led(es[k]) && StreakBefore(es, k)
  }

  /**
   Nothing that could end the downtime is left standing before entry `n`: a confirmation
   without a time stamp wipes out what came before it.
   */
  ghost predicate AllWiped(es: seq<Entry>, n: nat)
    requires n <= |es|
  {
    forall j :: 0 <= j < n && es[j].at != 0 && (Confirms(es[j]) || Recovers(es, j)) ==>
      exists c :: j < c < n && Confirms(es[c]) && es[c].at == 0
  }

  /**
   Entry `k` ends the downtime: it has a time, no confirmation follows, and it is itself a
   confirmation, or else the first recovery, with no confirmation before it.
   */
  ghost predicate EndsDowntime(es: seq<Entry>, n: nat, k: nat)
    requires n <= |es|
  {
    && k < n && es[k].at != 0
    && (forall j :: k < j < n ==> !Confirms(es[j]))
    && (Confirms(es[k])
        || (Recovers(es, k) && AllWiped(es, k)))
  }

  lemma {:induction false} StartMeaning(es: seq<Entry>, n: nat)
    requires n <= |es|
    ensures GaugeAt(es, n).inStreak <==> StreakBefore(es, n)
    ensures (exists k: nat :: LastLed(es, n, k)) || GaugeAt(es, n).start == 0
    ensures forall k: nat :: LastLed(es, n, k) ==> GaugeAt(es, n).start == es[k].at
  {
    if n == 0 {
    } else {
      var p := n - 1;
      StartMeaning(es, p);
      if Led(es[p]) && !StreakBefore(es, p) {
        assert LastLed(es, n, p);
      } else if k: nat :| LastLed(es, p, k) {
        assert LastLed(es, n, k);
      }
      forall k: nat | LastLed(es, n, k) ensures GaugeAt(es, n).start == es[k].at {
        if k < p {
          assert LastLed(es, p, k);
        }
      }
    }
  }

  /** How one more entry changes what stands, if it is no confirmation. */
  lemma WipedStep(es: seq<Entry>, p: nat, n: nat)
    requires p < n == p + 1 <= |es|
    ensures Confirms(es[p]) ==> (AllWiped(es, n) <==> es[p].at == 0)
    ensures !Confirms(es[p]) ==> (AllWiped(es, n) <==> AllWiped(es, p) && (es[p].at == 0 || !Recovers(es, p)))
  {
    if !Confirms(es[p]) && AllWiped(es, n) {
      forall j | 0 <= j < p && es[j].at != 0 && (Confirms(es[j]) || Recovers(es, j))
        ensures exists c :: j < c < p && Confirms(es[c]) && es[c].at == 0
      {
        var c :| j < c < n && Confirms(es[c]) && es[c].at == 0;
      }
    }
  }

  lemma EndsStep(es: seq<Entry>, p: nat, n: nat, k: nat)
    requires p < n == p + 1 <= |es|
    ensures k == p ==>
              (EndsDowntime(es, n, k) <==> es[p].at != 0 && (Confirms(es[p]) || (Recovers(es, p) && AllWiped(es, p))))
    ensures k != p ==> (EndsDowntime(es, n, k) <==> EndsDowntime(es, p, k) && !Confirms(es[p]))
  {
    hide AllWiped;
  }

  lemma {:induction false} EndMeaning(es: seq<Entry>, n: nat)
    requires n <= |es|
    ensures GaugeAt(es, n).end == 0 <==> AllWiped(es, n)
    ensures (exists k: nat :: EndsDowntime(es, n, k)) || GaugeAt(es, n).end == 0
    ensures forall k: nat :: EndsDowntime(es, n, k) ==> GaugeAt(es, n).end == es[k].at
  {
    if n == 0 {
    } else {
      var p := n - 1;
      EndMeaning(es, p);
      StartMeaning(es, p);
      WipedStep(es, p, n);
      hide AllWiped, EndsDowntime;
      forall k: nat | EndsDowntime(es, n, k) ensures GaugeAt(es, n).end == es[k].at {
        EndsStep(es, p, n, k);
        EndsHaveTime(es, p, k);
      }
      EndsStep(es, p, n, p);
      if !EndsDowntime(es, n, p) {
        if k: nat :| EndsDowntime(es, p, k) {
          EndsStep(es, p, n, k);
          EndsHaveTime(es, p, k);
        }
      }
    }
  }

  lemma EndsHaveTime(es: seq<Entry>, n: nat, k: nat)
    requires n <= |es|
    ensures EndsDowntime(es, n, k) ==> k < n && es[k].at != 0
  {
  }

  /**
   The downtime runs from the last sample with a leader before the first leaderless one to
   the last confirmation, or without one to the first recovery; it is unknown exactly if
   either is missing or bears no time.
   */
  lemma {:induction false} DowntimeMeaning(es: seq<Entry>)
    ensures DowntimeOf(es).Some? <==>
              exists k: nat, l: nat :: LastLed(es, |es|, k) && es[k].at != 0 && EndsDowntime(es, |es|, l)
    ensures forall k: nat, l: nat :: LastLed(es, |es|, k) && es[k].at != 0 && EndsDowntime(es, |es|, l) ==>
              DowntimeOf(es) == Some(RoundTo(es[l].at - es[k].at, 1_000_000))
  {
    hide LastLed, EndsDowntime, RoundTo, GaugeAt, AllWiped, StreakBefore;
    StartMeaning(es, |es|);
    EndMeaning(es, |es|);
    forall k: nat ensures LastLed(es, |es|, k) ==> k < |es| {
      LastLedInRange(es, |es|, k);
    }
    forall l: nat ensures EndsDowntime(es, |es|, l) ==> l < |es| && es[l].at != 0 {
      EndsHaveTime(es, |es|, l);
    }
    if k: nat, l: nat :| LastLed(es, |es|, k) && EndsDowntime(es, |es|, l) {
      assert GaugeAt(es, |es|).start == es[k].at && GaugeAt(es, |es|).end == es[l].at;
    }
  }

  lemma RoundedNegative(d: int)
    ensures RoundTo(d, MILLISECOND) < 0 <==> 2 * d <= -MILLISECOND
  {
    RoundToIsNearest(d, MILLISECOND);
  }

  /** Entry `l` is a confirmation that comes at least half a millisecond before entry `k`. */
  ghost predicate ConfirmsTooEarly(es: seq<Entry>, k: nat, l: nat)
  {
    l < k < |es| && Confirms(es[l]) && 2 * (es[k].at - es[l].at) >= MILLISECOND
  }

  lemma TimesDoNotFall(es: seq<Entry>, i: nat, j: nat)
    requires Sorted(EntryBefore, es) && i <= j < |es|
    ensures es[i].at <= es[j].at
  {
  }

  lemma StreakGrows(es: seq<Entry>, l: nat, k: nat)
    requires l <= k <= |es|
    ensures StreakBefore(es, l) ==> StreakBefore(es, k)
  {
  }

  /** Only a confirmation can end the downtime before it began. */
  lemma RecoveryComesLater(es: seq<Entry>, k: nat, l: nat)
    requires Sorted(EntryBefore, es) && LastLed(es, |es|, k) && EndsDowntime(es, |es|, l)
    ensures es[l].at < es[k].at ==> l < k && Confirms(es[l])
  {
    if k <= l {
      TimesDoNotFall(es, k, l);
    } else {
      StreakGrows(es, l, k);
    }
  }

  lemma NegativeFor(es: seq<Entry>, k: nat, l: nat)
    requires Sorted(EntryBefore, es) && k < |es| && l < |es|
    requires LastLed(es, |es|, k) && es[k].at != 0 && EndsDowntime(es, |es|, l)
    ensures DowntimeOf(es).Some? && (DowntimeOf(es).value < 0 <==> ConfirmsTooEarly(es, k, l))
  {
    DowntimeMeaning(es);
    RecoveryComesLater(es, k, l);
    RoundedNegative(es[l].at - es[k].at);
    hide LastLed, EndsDowntime, RoundTo, DowntimeOf, EntryBefore;
  }

  /**
   The downtime of a timeline is negative exactly if the confirmation that ends it comes at
   least half a millisecond before the sample that starts it.
   */
  lemma NegativeDowntimeExactly(es: seq<Entry>)
    requires Sorted(EntryBefore, es)
    ensures (DowntimeOf(es).Some? && DowntimeOf(es).value < 0)
       <==> exists k: nat, l: nat :: LastLed(es, |es|, k) && es[k].at != 0 && EndsDowntime(es, |es|, l) && ConfirmsTooEarly(es, k, l)
  {
    DowntimeMeaning(es);
    hide LastLed, EndsDowntime, DowntimeOf, ConfirmsTooEarly, EntryBefore;
    forall k: nat, l: nat | LastLed(es, |es|, k) && EndsDowntime(es, |es|, l)
      ensures k < |es| && (es[k].at != 0 ==> DowntimeOf(es).Some? && (DowntimeOf(es).value < 0 <==> ConfirmsTooEarly(es, k, l)))
    {
      LastLedInRange(es, |es|, k);
      EndsHaveTime(es, |es|, l);
      if es[k].at != 0 {
        NegativeFor(es, k, l);
      }
    }
  }

  lemma LastLedInRange(es: seq<Entry>, n: nat, k: nat)
    requires n <= |es|
    ensures LastLed(es, n, k) ==> k < n
  {
  }

  /** If every confirmation comes after the first leaderless sample, the downtime is not negative. */
  lemma DowntimeIsNotNegative(es: seq<Entry>)
    requires Sorted(EntryBefore, es)
    requires forall i :: 0 <= i < |es| && Confirms(es[i]) ==> StreakBefore(es, i)
    ensures DowntimeOf(es).Some? ==> DowntimeOf(es).value >= 0
  {
    NegativeDowntimeExactly(es);
    forall k: nat, l: nat | LastLed(es, |es|, k) && l < k ensures !Confirms(es[l]) {
      StreakGrows(es, l, k);
    }
  }

  /** One recording that holds the confirmation of an earlier failover and a later sample with a leader. */
  function EarlyConfirmation(name: string, ip: string): Recording
  {
    Recording(name, ip, [Sample(3 * SECOND, 0, false, false)], [TimelineEntry(SECOND, "confirmed_active", "")])
  }

  lemma EarlyConfirmationMerges(r: Recording, es: seq<Entry>)
    requires |r.samples| == |r.timeline| == 1 && r.timeline[0].at < r.samples[0].at
    requires es == [EntryOfEvent(r, r.timeline[0]), EntryOfSample(r, r.samples[0])]
    ensures Merges(es, [r])
  {
    assert AllEntries([r]) == EntriesOf(r) == [es[1], es[0]];
  }

  lemma EarlyConfirmationGauge(es: seq<Entry>)
    requires |es| == 2 && Confirms(es[0]) && Led(es[1]) && es[0].at != 0 && es[1].at != 0
    ensures DowntimeOf(es) == Some(RoundTo(es[0].at - es[1].at, MILLISECOND))
  {
    hide RoundTo;
    assert GaugeAt(es, 1) == Gauge(false, 0, es[0].at);
    assert GaugeAt(es, 2) == Gauge(false, es[1].at, es[0].at);
  }

  /** Such a recording shows a negative downtime. */
  lemma NegativeDowntimeExample(name: string, ip: string) returns (es: seq<Entry>)
    ensures Merges(es, [EarlyConfirmation(name, ip)]) && DowntimeOf(es) == Some(-2 * SECOND)
  {
    hide Merges, DowntimeOf;
    var r := EarlyConfirmation(name, ip);
    es := [EntryOfEvent(r, r.timeline[0]), EntryOfSample(r, r.samples[0])];
    EarlyConfirmationMerges(r, es);
    EarlyConfirmationGauge(es);
  }

  /** Two samples of one node at one instant, one with a leader and one without. */
  function TwoAtOnce(name: string, ip: string): Recording
  {
    Recording(name, ip,
      [Sample(SECOND, 0, false, false), Sample(2 * SECOND, 0, false, false),
       Sample(2 * SECOND, 1, false, false), Sample(5 * SECOND, 0, false, false)], [])
  }

  lemma FourGauges(es: seq<Entry>)
    requires |es| == 4 && Led(es[0]) && Led(es[3]) && forall i :: 0 <= i < 4 ==> es[i].at != 0
    ensures Led(es[1]) && Leaderless(es[2]) ==> DowntimeOf(es) == Some(RoundTo(es[3].at - es[1].at, MILLISECOND))
    ensures Leaderless(es[1]) && Led(es[2]) ==> DowntimeOf(es) == Some(RoundTo(es[2].at - es[0].at, MILLISECOND))
  {
    hide RoundTo;
    assert GaugeAt(es, 1) == Gauge(false, es[0].at, 0);
    assert GaugeAt(es, 2) == Gauged(GaugeAt(es, 1), es[1]);
    assert GaugeAt(es, 3) == Gauged(GaugeAt(es, 2), es[2]);
    assert GaugeAt(es, 4) == Gauged(GaugeAt(es, 3), es[3]);
  }

  /** Such a recording has two timelines, and they show two downtimes: three seconds and one. */
  lemma TwoTimelinesExample(name: string, ip: string) returns (es: seq<Entry>, fs: seq<Entry>)
    ensures Merges(es, [TwoAtOnce(name, ip)]) && Merges(fs, [TwoAtOnce(name, ip)])
    ensures DowntimeOf(es) == Some(3 * SECOND) && DowntimeOf(fs) == Some(SECOND)
  {
    hide DowntimeOf, RoundTo, Sorted, AllEntries, TwoAtOnce, EntryBefore;
    es := TwoAtOnceMerges(name, ip);
    fs := Swapped(es, 1, 2);
    SwapTies(es);
    FourGauges(es);
    FourGauges(fs);
    WholeSeconds();
  }

  lemma TwoAtOnceMerges(name: string, ip: string) returns (es: seq<Entry>)
    ensures Merges(es, [TwoAtOnce(name, ip)])
    ensures |es| == 4 && Led(es[0]) && Led(es[1]) && Leaderless(es[2]) && Led(es[3])
    ensures es[0].at == SECOND && es[1].at == es[2].at == 2 * SECOND && es[3].at == 5 * SECOND
    ensures es[1].nodeName == es[2].nodeName
  {
    hide Sorted, EntryBefore, AllEntries;
    var r := TwoAtOnce(name, ip);
    es := EntriesOf(r);
    OneFile(r);
    SamplesInOrder(es);
  }

  lemma OneFile(r: Recording)
    ensures AllEntries([r]) == EntriesOf(r)
  {
    hide EntriesOf;
    assert [r][..0] == [];
  }

  /** Samples of one node are in order if their times do not fall. */
  lemma SamplesInOrder(es: seq<Entry>)
    requires forall i :: 0 <= i < |es| ==> es[i].SampleEntry? && es[i].nodeName == es[0].nodeName
    requires forall i, j :: 0 <= i < j < |es| ==> es[i].at <= es[j].at
    ensures Sorted(EntryBefore, es)
  {
    forall i, j | 0 <= i < j < |es| ensures !EntryBefore(es[j], es[i]) {
      if StrLess(es[j].nodeName, es[i].nodeName) {
        StrLessAsymmetric(es[j].nodeName, es[i].nodeName);
      }
    }
  }

  lemma SwapTies(es: seq<Entry>)
    requires |es| == 4 && Sorted(EntryBefore, es)
    requires es[1].SampleEntry? && es[2].SampleEntry? && es[1].at == es[2].at && es[1].nodeName == es[2].nodeName
    ensures Sorted(EntryBefore, es[1 := es[2]][2 := es[1]])
  {
    StrLessIsTotal();
    hide StrLess;
    SwapKeepsOrder(es, 1, 2);
  }

  lemma WholeSeconds()
    ensures RoundTo(3 * SECOND, MILLISECOND) == 3 * SECOND && RoundTo(SECOND, MILLISECOND) == SECOND
  {
  }
}
