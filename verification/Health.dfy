/**
 The local validator's health streak.  Times and durations are integers in nanoseconds; a
 zero time.Time is `None`.
 */
module Health {
  import opened Answers
  import opened Durations

  const HEALTH_OK := "ok"

  datatype Config = Config(minimumDuration: int, unhealthyGraceCount: int)

  datatype Streak = Streak(since: Option<int>, unhealthyRun: nat, minReached: bool, unhealthyLogged: bool)

  const NO_STREAK := Streak(None, 0, false, false)

  predicate IsHealthy(answer: Answer<string>)
  {
    answer.Ok? && answer.value == HEALTH_OK
  }

  predicate IsActive(activePubkey: string, identity: Answer<string>)
  {
    identity.Ok? && identity.value == activePubkey
  }

  predicate IsPassive(activePubkey: string, identity: Answer<string>)
  {
    identity.Ok? && identity.value != activePubkey
  }

  /** One sample of the local health at time `now`. */
  function Sampled(cfg: Config, s: Streak, now: int, healthy: bool): Streak
  {
    if healthy then
      var started := if s.since.None? then Streak(Some(now), 0, false, false) else s.(unhealthyRun := 0);
      started.(minReached := started.minReached || RoundTo(now - started.since.value, SECOND) >= cfg.minimumDuration)
    else if s.unhealthyRun + 1 <= cfg.unhealthyGraceCount then
      s.(unhealthyRun := s.unhealthyRun + 1)
    else
      Streak(None, s.unhealthyRun + 1, s.since.None? && s.minReached, true)
  }

  predicate LongEnough(cfg: Config, s: Streak, now: int)
  {
    s.since.Some? && now - s.since.value >= cfg.minimumDuration
  }

  class State {
    const cfg: Config
    const activePubkey: string
    var healthySince: Option<int>
    var consecutiveUnhealthyCount: nat
    var minDurationReached: bool
    var unhealthyLogged: bool

    function Now(): Streak
      reads this
    {
      Streak(healthySince, consecutiveUnhealthyCount, minDurationReached, unhealthyLogged)
    }

    constructor (cfg: Config, activePubkey: string)
      ensures this.cfg == cfg && this.activePubkey == activePubkey && Now() == NO_STREAK
    {
      this.cfg, this.activePubkey := cfg, activePubkey;
      healthySince, consecutiveUnhealthyCount, minDurationReached, unhealthyLogged := None, 0, false, false;
    }

    method SampleSelf(now: int, health: Answer<string>)
      modifies this
      ensures Now() == Sampled(cfg, old(Now()), now, health == Ok("ok"))
    {
      if IsHealthy(health) {
        consecutiveUnhealthyCount := 0;
        if healthySince.None? {
          healthySince := Some(now);
          minDurationReached := false;
          unhealthyLogged := false;
        }
        var healthyFor := RoundTo(now - healthySince.value, SECOND);
        if !minDurationReached && healthyFor >= cfg.minimumDuration {
          minDurationReached := true;
        }
      } else {
        consecutiveUnhealthyCount := consecutiveUnhealthyCount + 1;
        if consecutiveUnhealthyCount <= cfg.unhealthyGraceCount {
          return;
        }
        if healthySince.Some? {
          healthySince := None;
          minDurationReached := false;
          unhealthyLogged := false;
        }
        if !unhealthyLogged {
          unhealthyLogged := true;
        }
      }
    }

    method IsSelfHealthyLongEnough(now: int) returns (longEnough: bool)
      ensures longEnough <==> healthySince.Some? && now - healthySince.value >= cfg.minimumDuration
    {
      var since := healthySince;
      if since.None? {
        return false;
      }
      return now - since.value >= cfg.minimumDuration;
    }
  }

  // ---------------------------------------------------------------- what the streak means

  datatype Sample = Sample(at: int, healthy: bool)

  function StreakAfter(cfg: Config, history: seq<Sample>, n: nat): Streak
    requires n <= |history|
  {
    if n == 0 then NO_STREAK
    else Sampled(cfg, StreakAfter(cfg, history, n - 1), history[n - 1].at, history[n - 1].healthy)
  }

  /** More than the grace count of samples in a row, the last of them sample `i`, were unhealthy. */
  ghost predicate Exhausted(cfg: Config, history: seq<Sample>, i: nat)
    requires i < |history|
  {
    var grace := if cfg.unhealthyGraceCount < 0 then 0 else cfg.unhealthyGraceCount;
    grace <= i && forall j :: i - grace <= j <= i ==> !history[j].healthy
  }

  /** Sample `k` is healthy and nothing from it up to `n` exhausted the grace. */
  ghost predicate Unbroken(cfg: Config, history: seq<Sample>, n: nat, k: nat)
    requires n <= |history|
  {
    k < n && history[k].healthy && forall i: nat :: k < i < n ==> !Exhausted(cfg, history, i)
  }

  /** Sample `k` is the first healthy sample after the last one that exhausted the grace. */
  ghost predicate StreakStart(cfg: Config, history: seq<Sample>, n: nat, k: nat)
    requires n <= |history|
  {
    && Unbroken(cfg, history, n, k)
    && forall j: nat :: j < k ==> !Unbroken(cfg, history, n, j)
  }

  lemma {:induction false} UnhealthyRunIsTrailing(cfg: Config, history: seq<Sample>, n: nat)
    requires n <= |history|
    ensures var run := StreakAfter(cfg, history, n).unhealthyRun;
            && run <= n
            && (forall j :: n - run <= j < n ==> !history[j].healthy)
            && (run < n ==> history[n - run - 1].healthy)
  {
    if n == 0 {
    } else {
      UnhealthyRunIsTrailing(cfg, history, n - 1);
    }
  }

  lemma ExhaustedIsLongRun(cfg: Config, history: seq<Sample>, i: nat)
    requires i < |history|
    ensures Exhausted(cfg, history, i)
       <==> !history[i].healthy && StreakAfter(cfg, history, i + 1).unhealthyRun > cfg.unhealthyGraceCount
  {
    UnhealthyRunIsTrailing(cfg, history, i + 1);
    var run := StreakAfter(cfg, history, i + 1).unhealthyRun;
    if history[i].healthy {
      assert !Exhausted(cfg, history, i);
    } else {
      var grace := if cfg.unhealthyGraceCount < 0 then 0 else cfg.unhealthyGraceCount;
      if run <= grace && grace <= i {
        assert history[i - run].healthy;
      }
    }
  }

  lemma UnbrokenStep(cfg: Config, history: seq<Sample>, n: nat, k: nat)
    requires n < |history|
    ensures Unbroken(cfg, history, n + 1, k)
       <==> (k == n && history[n].healthy) || (Unbroken(cfg, history, n, k) && !Exhausted(cfg, history, n))
  {
    if k < n && history[k].healthy && Unbroken(cfg, history, n + 1, k) {
      assert Unbroken(cfg, history, n, k);
    }
  }

  /**
   Exactness of the streak: after any history of samples, healthySince is the time of the
   first healthy sample after the last one at which more than the grace count of samples
   in a row were unhealthy, and unset when there is no such sample.
   */
  lemma {:induction false} StreakIsExact(cfg: Config, history: seq<Sample>, n: nat)
    requires n <= |history|
    ensures var since := StreakAfter(cfg, history, n).since;
            && (since.Some? ==> exists k: nat :: StreakStart(cfg, history, n, k) && history[k].at == since.value)
            && (since.None? ==> forall k: nat :: !Unbroken(cfg, history, n, k))
  {
    if n == 0 {
    } else {
      StreakIsExact(cfg, history, n - 1);
      ExhaustedIsLongRun(cfg, history, n - 1);
      forall k: nat
        ensures Unbroken(cfg, history, n, k)
           <==> (k == n - 1 && history[n - 1].healthy)
                || (Unbroken(cfg, history, n - 1, k) && !Exhausted(cfg, history, n - 1))
      {
        UnbrokenStep(cfg, history, n - 1, k);
      }
      var before := StreakAfter(cfg, history, n - 1);
      if before.since.Some? && !Exhausted(cfg, history, n - 1) {
        var k: nat :| StreakStart(cfg, history, n - 1, k) && history[k].at == before.since.value;
        assert StreakStart(cfg, history, n, k);
      } else if history[n - 1].healthy {
        assert StreakStart(cfg, history, n, n - 1);
      }
    }
  }

  /**
   Eligibility, both ways: we count as healthy for long enough exactly when some healthy
   sample is at least the minimum duration old and no sample since exhausted the grace.
   */
  lemma LongEnoughIsExact(cfg: Config, history: seq<Sample>, now: int)
    requires forall i, j :: 0 <= i < j < |history| ==> history[i].at <= history[j].at
    ensures LongEnough(cfg, StreakAfter(cfg, history, |history|), now)
       <==> exists k: nat :: Unbroken(cfg, history, |history|, k) && now - history[k].at >= cfg.minimumDuration
  {
    StreakIsExact(cfg, history, |history|);
    var since := StreakAfter(cfg, history, |history|).since;
    if since.Some? {
      var k: nat :| StreakStart(cfg, history, |history|, k) && history[k].at == since.value;
      forall j: nat | Unbroken(cfg, history, |history|, j) ensures history[k].at <= history[j].at {
        assert !(j < k);
      }
    }
  }

  /** No sample that exhausted the grace is younger than the minimum duration. */
  ghost predicate NoOutageLately(cfg: Config, history: seq<Sample>, now: int)
  {
    forall i: nat :: i < |history| && Exhausted(cfg, history, i) ==> now - history[i].at >= cfg.minimumDuration
  }

  /** So when we are eligible, every sample that exhausted the grace is at least the minimum duration old. */
  lemma NoRecentOutage(cfg: Config, history: seq<Sample>, now: int, i: nat)
    requires forall i, j :: 0 <= i < j < |history| ==> history[i].at <= history[j].at
    requires LongEnough(cfg, StreakAfter(cfg, history, |history|), now)
    requires i < |history| && Exhausted(cfg, history, i)
    ensures now - history[i].at >= cfg.minimumDuration
  {
    LongEnoughIsExact(cfg, history, now);
    var k: nat :| Unbroken(cfg, history, |history|, k) && now - history[k].at >= cfg.minimumDuration;
    assert i != k;
    assert i < k;
  }

  /** A sample after which more than the grace count in a row were unhealthy leaves no streak. */
  lemma OutageEndsStreak(cfg: Config, history: seq<Sample>)
    requires history != [] && Exhausted(cfg, history, |history| - 1)
    ensures StreakAfter(cfg, history, |history|).since.None?
  {
    StreakIsExact(cfg, history, |history|);
    ExhaustedIsLongRun(cfg, history, |history| - 1);
  }

  /** Healthy sample `i` of the streak that began with sample `k` is old enough, rounded to seconds. */
  ghost predicate Milestone(cfg: Config, history: seq<Sample>, n: nat, k: nat, i: nat)
    requires n <= |history|
  {
    k <= i < n && history[i].healthy && RoundTo(history[i].at - history[k].at, 1_000_000_000) >= cfg.minimumDuration
  }

  /** Being unhealthy is logged exactly if there is no streak and some sample exhausted the grace. */
  lemma {:induction false} UnhealthyMarkIsExact(cfg: Config, history: seq<Sample>, n: nat)
    requires n <= |history|
    ensures var s := StreakAfter(cfg, history, n);
            s.unhealthyLogged <==> s.since.None? && exists i: nat :: i < n && Exhausted(cfg, history, i)
  {
    if n == 0 {
    } else {
      UnhealthyMarkIsExact(cfg, history, n - 1);
      ExhaustedIsLongRun(cfg, history, n - 1);
    }
  }

  /**
   The milestone is logged exactly if some healthy sample of the current streak is, rounded
   to seconds, as old as the minimum duration.
   */
  lemma {:induction false} MilestoneIsExact(cfg: Config, history: seq<Sample>, n: nat, k: nat)
    requires n <= |history| && StreakStart(cfg, history, n, k)
    ensures StreakAfter(cfg, history, n).since == Some(history[k].at)
    ensures StreakAfter(cfg, history, n).minReached <==> exists i: nat :: Milestone(cfg, history, n, k, i)
  {
    var p := n - 1;
    ExhaustedIsLongRun(cfg, history, p);
    UnbrokenStep(cfg, history, p, k);
    if k < p {
      forall j: nat | j < k ensures !Unbroken(cfg, history, p, j) {
        UnbrokenStep(cfg, history, p, j);
      }
      MilestoneIsExact(cfg, history, p, k);
      if history[p].healthy && StreakAfter(cfg, history, n).minReached {
        assert Milestone(cfg, history, n, k, p) || exists i: nat :: Milestone(cfg, history, p, k, i);
      }
      if i: nat :| Milestone(cfg, history, p, k, i) {
        assert Milestone(cfg, history, n, k, i);
      }
      if i: nat :| Milestone(cfg, history, n, k, i) {
        assert i < p ==> Milestone(cfg, history, p, k, i);
      }
    } else {
      NoStreakBefore(cfg, history, p);
      assert Milestone(cfg, history, n, k, p) <==> RoundTo(0, SECOND) >= cfg.minimumDuration;
    }
  }

  /** If a streak begins with sample `p`, there was none just before. */
  lemma NoStreakBefore(cfg: Config, history: seq<Sample>, p: nat)
    requires p < |history| && StreakStart(cfg, history, p + 1, p)
    ensures StreakAfter(cfg, history, p).since.None?
  {
    StreakIsExact(cfg, history, p);
    if k: nat :| StreakStart(cfg, history, p, k) {
      UnbrokenStep(cfg, history, p, k);
    }
  }

  /** The logged milestone comes from a rounded duration, so it may run ahead of eligibility, by half a second at most. */
  lemma {:induction false} MilestoneRunsAheadByHalfASecond(cfg: Config, history: seq<Sample>, n: nat)
    requires n <= |history|
    requires forall i, j :: 0 <= i < j < |history| ==> history[i].at <= history[j].at
    ensures var s := StreakAfter(cfg, history, n);
            s.minReached ==>
              && s.since.Some? && n > 0
              && history[n - 1].at - s.since.value >= cfg.minimumDuration - SECOND / 2
  {
    if n == 0 {
    } else {
      MilestoneRunsAheadByHalfASecond(cfg, history, n - 1);
    }
  }
}
