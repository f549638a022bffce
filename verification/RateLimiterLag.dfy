/**
 The limiter under concurrent calls. Allow reads the clock before it takes the mutex
 (internal/ratelimit/limiter.go), so calls may be applied with time stamps that lie behind ones
 already applied. The admission bound then holds with the lag added to the interval.
 */
module RateLimiterLag {
  import opened RateLimiter

  function Max(a: int, b: int): int {
    if a <= b then b else a
  }

  /** No stamp lies more than d behind the latest one applied before it; top is that one so far. */
  ghost predicate Lagging(top: Time, d: Time, calls: seq<Call>)
    decreases calls
  {
    calls != [] ==> top - d <= calls[0].now && Lagging(Max(top, calls[0].now), d, calls[1..])
  }

  /** Without lag the stamps are in order. */
  lemma {:induction false} NoLagIsOrdered(top: Time, calls: seq<Call>)
    ensures Lagging(top, 0, calls) <==> Ordered(top, calls)
    decreases calls
  {
    if calls != [] { NoLagIsOrdered(Max(top, calls[0].now), calls[1..]); }
  }

  /** A sweep forgets no debt even when the next stamp lags. */
  predicate SweepsLate(cfg: Config, d: Time) {
    cfg.idleTTL <= 0 || cfg.idleTTL >= cfg.window + d
  }

  ghost predicate LagInv(cfg: Config, st: State, top: Time) {
    forall k :: k in st.buckets ==> 0 <= st.buckets[k].tokens <= cfg.Burst() && st.buckets[k].last <= top
  }

  /**
   What the key can spend by the horizon: its tokens and all refill until then, or a full bucket
   made at the earliest stamp still to come.
   */
  function Means(cfg: Config, st: State, key: Key, low: Time, horizon: Time): int {
    if key in st.buckets then st.buckets[key].tokens + cfg.requests * (horizon - st.buckets[key].last)
    else cfg.Burst() + cfg.requests * (horizon - low)
  }

  lemma MeansNonNegative(cfg: Config, st: State, key: Key, top: Time, low: Time, horizon: Time)
    requires cfg.Enabled() && LagInv(cfg, st, top) && low <= horizon && top <= horizon
    ensures Means(cfg, st, key, low, horizon) >= 0
  {
    Gain(cfg.requests, horizon - low);
    Gain(cfg.requests, cfg.window);
    if key in st.buckets { Gain(cfg.requests, horizon - st.buckets[key].last); }
  }

  /** The bucket a call spends from is no older than its stamp, and worth no more than the means before. */
  lemma OfferWithinMeans(cfg: Config, st: State, key: Key, top: Time, low: Time, now: Time, horizon: Time)
    requires cfg.Enabled() && LagInv(cfg, st, top) && low <= now
    ensures var b := Current(cfg, st, key, now);
            && 0 <= b.tokens <= cfg.Burst() && now <= b.last <= Max(top, now)
            && b.tokens + cfg.requests * (horizon - b.last) <= Means(cfg, st, key, low, horizon)
  {
    Gain(cfg.requests, cfg.window);
    if key in st.buckets {
      var last := st.buckets[key].last;
      Gain(cfg.requests, now - last);
      GainAdds(cfg.requests, now - last, horizon - now);
    } else {
      GainMonotone(cfg.requests, horizon - now, horizon - low);
    }
  }

  /** An evicted bucket was worth a full one made at any stamp that may still come. */
  lemma SweepWithinMeans(cfg: Config, st: State, key: Key, top: Time, d: Time, now: Time, horizon: Time)
    requires cfg.Enabled() && SweepsLate(cfg, d) && d >= 0 && LagInv(cfg, st, top) && top - d <= now
    ensures Means(cfg, Sweep(cfg, st, now), key, Max(top, now) - d, horizon) <= Means(cfg, st, key, top - d, horizon)
    ensures key !in Sweep(cfg, st, now).buckets ==> cfg.Burst() + cfg.requests * (horizon - now) <= Means(cfg, st, key, top - d, horizon)
  {
    var low := Max(top, now) - d;
    GainMonotone(cfg.requests, horizon - low, horizon - (top - d));
    GainMonotone(cfg.requests, horizon - now, horizon - (top - d));
    if key in st.buckets && key !in Sweep(cfg, st, now).buckets {
      var last := st.buckets[key].last;
      GainAdds(cfg.requests, cfg.window, horizon - low);
      GainAdds(cfg.requests, cfg.window, horizon - now);
      GainMonotone(cfg.requests, cfg.window + (horizon - low), horizon - last);
      GainMonotone(cfg.requests, cfg.window + (horizon - now), horizon - last);
    }
  }

  lemma SweepLagInv(cfg: Config, st: State, top: Time, now: Time)
    requires LagInv(cfg, st, top)
    ensures LagInv(cfg, Sweep(cfg, st, now), top)
  {}

  /** A call keeps the invariant and spends one token out of its key's means if it is admitted. */
  lemma StepWithinMeans(cfg: Config, st: State, top: Time, d: Time, c: Call, key: Key, horizon: Time)
    requires cfg.Enabled() && SweepsLate(cfg, d) && d >= 0 && LagInv(cfg, st, top) && top - d <= c.now
    ensures var (st', answer) := Step(cfg, st, c);
            && LagInv(cfg, st', Max(top, c.now))
            && Means(cfg, st', key, Max(top, c.now) - d, horizon)
               <= Means(cfg, st, key, top - d, horizon) - (if key == c.key && answer.allowed then cfg.window else 0)
  {
    var swept := Sweep(cfg, st, c.now);
    SweepLagInv(cfg, st, top, c.now);
    SweepWithinMeans(cfg, st, key, top, d, c.now, horizon);
    OfferWithinMeans(cfg, swept, c.key, top, top - d, c.now, horizon);
  }

  lemma {:induction false} NoneAdmittedBeyond(calls: seq<Call>, answers: seq<Answer>, top: Time, d: Time, key: Key, from: Time, to: Time)
    requires |calls| == |answers| && Lagging(top, d, calls) && top > to + d
    ensures Admitted(calls, answers, key, from, to) == 0
    decreases calls
  {
    if calls != [] { NoneAdmittedBeyond(calls[1..], answers[1..], Max(top, calls[0].now), d, key, from, to); }
  }

  lemma AdmittedTail(cfg: Config, st: State, calls: seq<Call>, key: Key, from: Time, to: Time)
    requires calls != []
    ensures var (st', answer) := Step(cfg, st, calls[0]);
            Admitted(calls, Answers(cfg, st, calls), key, from, to) ==
            (if calls[0].key == key && answer.allowed && from <= calls[0].now <= to then 1 else 0)
            + Admitted(calls[1..], Answers(cfg, st', calls[1..]), key, from, to)
  {}

  lemma OneMore(n: nat, unit: int)
    ensures (n + 1) * unit == n * unit + unit
  {}

  /** Admissions up to `to` are paid for by the means at the horizon to + d. */
  lemma {:induction false} AdmittedWithinMeans(cfg: Config, st: State, top: Time, d: Time, calls: seq<Call>, key: Key, from: Time, to: Time)
    requires cfg.Enabled() && SweepsLate(cfg, d) && d >= 0 && LagInv(cfg, st, top) && Lagging(top, d, calls) && top <= to + d
    ensures Admitted(calls, Answers(cfg, st, calls), key, from, to) * cfg.window <= Means(cfg, st, key, top - d, to + d)
    decreases calls
  {
    MeansNonNegative(cfg, st, key, top, top - d, to + d);
    if calls != [] {
      var c := calls[0];
      var (st', answer) := Step(cfg, st, c);
      var n := Admitted(calls[1..], Answers(cfg, st', calls[1..]), key, from, to);
      StepWithinMeans(cfg, st, top, d, c, key, to + d);
      AdmittedTail(cfg, st, calls, key, from, to);
      OneMore(n, cfg.window);
      if c.now > to + d {
        NoneAdmittedBeyond(calls[1..], Answers(cfg, st', calls[1..]), Max(top, c.now), d, key, from, to);
      } else {
        AdmittedWithinMeans(cfg, st', Max(top, c.now), d, calls[1..], key, from, to);
      }
    }
  }

  /** The first call of the interval leaves at most a full bucket made when the interval began. */
  lemma FirstOfInterval(cfg: Config, st: State, top: Time, d: Time, c: Call, from: Time, horizon: Time)
    requires cfg.Enabled() && d >= 0 && LagInv(cfg, st, top) && top - d <= c.now && from <= c.now
    ensures var (st', answer) := Step(cfg, st, c);
            Means(cfg, st', c.key, Max(top, c.now) - d, horizon)
            <= cfg.requests * cfg.window + cfg.requests * (horizon - from) - (if answer.allowed then cfg.window else 0)
  {
    var swept := Sweep(cfg, st, c.now);
    SweepLagInv(cfg, st, top, c.now);
    OfferWithinMeans(cfg, swept, c.key, top, top - d, c.now, horizon);
    var b := Current(cfg, swept, c.key, c.now);
    GainMonotone(cfg.requests, horizon - b.last, horizon - from);
  }

  lemma {:induction false} AdmittedAnywhere(cfg: Config, st: State, top: Time, d: Time, calls: seq<Call>, key: Key, from: Time, to: Time)
    requires cfg.Enabled() && SweepsLate(cfg, d) && d >= 0 && LagInv(cfg, st, top) && Lagging(top, d, calls) && from <= to
    ensures Admitted(calls, Answers(cfg, st, calls), key, from, to) * cfg.window
         <= cfg.requests * cfg.window + cfg.requests * (to + d - from)
    decreases calls
  {
    Gain(cfg.requests, to + d - from);
    Gain(cfg.requests, cfg.window);
    if calls != [] {
      var c := calls[0];
      var (st', answer) := Step(cfg, st, c);
      var n := Admitted(calls[1..], Answers(cfg, st', calls[1..]), key, from, to);
      StepWithinMeans(cfg, st, top, d, c, key, to + d);
      AdmittedTail(cfg, st, calls, key, from, to);
      OneMore(n, cfg.window);
      if c.key == key && from <= c.now <= to {
        FirstOfInterval(cfg, st, top, d, c, from, to + d);
        AdmittedWithinMeans(cfg, st', Max(top, c.now), d, calls[1..], key, from, to);
      } else {
        AdmittedAnywhere(cfg, st', Max(top, c.now), d, calls[1..], key, from, to);
      }
    }
  }

  /**
   In every run whose stamps lag by at most d, on a limiter that never sweeps or has
   idleTTL >= window + d, the calls admitted for one key with stamps from..to number at most
   burst + rate * (to - from + d); both sides are multiplied by the window.
   */
  lemma LaggingBound(cfg: Config, t0: Time, d: Time, calls: seq<Call>, key: Key, from: Time, to: Time)
    requires cfg.Enabled() && SweepsLate(cfg, d) && d >= 0 && Lagging(t0, d, calls) && from <= to
    ensures Admitted(calls, Answers(cfg, New(t0), calls), key, from, to) * cfg.window
         <= cfg.requests * cfg.window + cfg.requests * (to - from + d)
  {
    AdmittedAnywhere(cfg, New(t0), t0, d, calls, key, from, to);
  }

  lemma StragglerLags(key: Key)
    ensures Lagging(0, 1, [Call(key, 0), Call(key, 0), Call(key, 1), Call(key, 0)])
  {
    var calls := [Call(key, 0), Call(key, 0), Call(key, 1), Call(key, 0)];
    assert calls[1..] == [calls[1], calls[2], calls[3]] && calls[1..][1..] == [calls[2], calls[3]];
    assert calls[1..][1..][1..] == [calls[3]] && calls[1..][1..][1..][1..] == [];
    assert Lagging(1, 1, [calls[3]]);
    assert Lagging(0, 1, [calls[2], calls[3]]);
    assert Lagging(0, 1, calls[1..]);
  }

  /** The lag cannot be left out: a call stamped 0 spends what a call stamped 1 refilled. */
  lemma LagBreaksBound(key: Key)
    ensures var (cfg, calls) := (Config(2, 1, 0), [Call(key, 0), Call(key, 0), Call(key, 1), Call(key, 0)]);
            && Lagging(0, 1, calls)
            && Admitted(calls, Answers(cfg, New(0), calls), key, 0, 0) == 3
            && 3 * cfg.window > cfg.requests * cfg.window + cfg.requests * (0 - 0)
  {
    var cfg, calls := Config(2, 1, 0), [Call(key, 0), Call(key, 0), Call(key, 1), Call(key, 0)];
    StragglerLags(key);
    var s1 := Step(cfg, New(0), calls[0]);
    var s2 := Step(cfg, s1.0, calls[1]);
    var s3 := Step(cfg, s2.0, calls[2]);
    var s4 := Step(cfg, s3.0, calls[3]);
    assert s1.0.buckets[key] == Bucket(1, 0) && s2.0.buckets[key] == Bucket(0, 0);
    assert s3.0.buckets[key] == Bucket(1, 1) && s4.0.buckets[key] == Bucket(0, 1);
    assert calls[1..] == [calls[1], calls[2], calls[3]] && calls[1..][1..] == [calls[2], calls[3]];
    assert calls[1..][1..][1..] == [calls[3]];
    AdmittedTail(cfg, New(0), calls, key, 0, 0);
    AdmittedTail(cfg, s1.0, calls[1..], key, 0, 0);
    AdmittedTail(cfg, s2.0, [calls[2], calls[3]], key, 0, 0);
    AdmittedTail(cfg, s3.0, [calls[3]], key, 0, 0);
  }
}
