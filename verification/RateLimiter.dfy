/**
 The keyed token-bucket limiter with its lazy eviction sweep (internal/ratelimit/limiter.go)
 and the Retry-After header computed from it (internal/api/ratelimit.go).

 Balances are exact: one token is `window` units and a bucket gains `requests` units per
 nanosecond, so a full bucket holds requests * window units.
 */
module RateLimiter {
  type Key = string
  type Time = int  // nanoseconds

  const SECOND: Time := 1_000_000_000

  datatype Config = Config(requests: int, window: Time, idleTTL: Time) {
    /** Otherwise the rate is zero and every call is refused. */
    predicate Enabled() {
      requests > 0 && window > 0
    }

    function Burst(): int {
      if Enabled() then requests * window else 0
    }

    /** No sweep can be noticed by a caller. */
    predicate Transparent() {
      !Enabled() || idleTTL <= 0 || idleTTL >= window
    }
  }

  datatype Bucket = Bucket(tokens: int, last: Time)
  datatype State = State(buckets: map<Key, Bucket>, lastSweep: Time)
  datatype Answer = Answer(allowed: bool, retryAfter: Time)
  datatype Call = Call(key: Key, now: Time)

  function Min(a: int, b: int): int {
    if a <= b then a else b
  }

  // ------------------------------------------------------ one call, on values

  function Refill(cfg: Config, b: Bucket, now: Time): Bucket {
    if now - b.last > 0 then Bucket(Min(cfg.Burst(), b.tokens + cfg.requests * (now - b.last)), now) else b
  }

  predicate SweepDue(cfg: Config, st: State, now: Time) {
    cfg.idleTTL > 0 && now - st.lastSweep >= cfg.idleTTL
  }

  function Sweep(cfg: Config, st: State, now: Time): State {
    if SweepDue(cfg, st, now)
    then State(map k | k in st.buckets && now - st.buckets[k].last < cfg.idleTTL :: st.buckets[k], now)
    else st
  }

  /** The bucket a call spends from: the refilled one, or a full one on first sight of the key. */
  function Current(cfg: Config, st: State, key: Key, now: Time): Bucket {
    if key in st.buckets then Refill(cfg, st.buckets[key], now) else Bucket(cfg.Burst(), now)
  }

  /** The answer for a balance, on an enabled limiter. */
  function Verdict(cfg: Config, balance: int): Answer
    requires cfg.Enabled()
  {
    if balance >= cfg.window then Answer(true, 0) else
      var wait := (cfg.window - balance) / cfg.requests;
      Answer(false, if wait <= 0 then 1 else wait)
  }

  function Step(cfg: Config, st: State, c: Call): (State, Answer) {
    var swept := Sweep(cfg, st, c.now);
    if !cfg.Enabled() then (swept, Answer(false, SECOND)) else
      var b := Current(cfg, swept, c.key, c.now);
      var answer := Verdict(cfg, b.tokens);
      var b' := if answer.allowed then Bucket(b.tokens - cfg.window, b.last) else b;
      (State(swept.buckets[c.key := b'], swept.lastSweep), answer)
  }

  // ---------------------------------------------------------------- the object

  class Limiter {
    const cfg: Config
    var buckets: map<Key, Bucket>
    var lastSweep: Time

    ghost function Value(): State
      reads this
    {
      State(buckets, lastSweep)
    }

    constructor (requests: int, window: Time, idleTTL: Time, now: Time)
      ensures cfg == Config(requests, window, idleTTL) && Value() == New(now)
    {
      cfg := Config(requests, window, idleTTL);
      buckets := map[];
      lastSweep := now;
    }

    method SweepLocked(now: Time)
      modifies this
      ensures Value() == Sweep(cfg, old(Value()), now)
    {
      if cfg.idleTTL <= 0 { return; }
      if now - lastSweep < cfg.idleTTL { return; }
      lastSweep := now;
      var todo := buckets.Keys;
      while todo != {}
        invariant lastSweep == now && todo <= old(buckets).Keys
        invariant forall k :: k in buckets <==>
                    k in old(buckets) && (k in todo || now - old(buckets)[k].last < cfg.idleTTL)
        invariant forall k :: k in buckets ==> buckets[k] == old(buckets)[k]
        decreases |todo|
      {
        var k :| k in todo;
        todo := todo - {k};
        if now - buckets[k].last >= cfg.idleTTL {
          buckets := buckets - {k};
        }
      }
    }

    method Allow(key: Key, now: Time) returns (allowed: bool, retryAfter: Time)
      modifies this
      ensures (Value(), Answer(allowed, retryAfter)) == Step(cfg, old(Value()), Call(key, now))
    {
      SweepLocked(now);
      if !cfg.Enabled() {
        return false, SECOND;
      }
      var b;
      if key !in buckets {
        b := Bucket(cfg.Burst(), now);
      } else {
        b := Refill(cfg, buckets[key], now);
      }
      buckets := buckets[key := b];
      if b.tokens >= cfg.window {
        var b' := Bucket(b.tokens - cfg.window, b.last);
        assert buckets[key := b'] == Sweep(cfg, old(Value()), now).buckets[key := b'];
        buckets := buckets[key := b'];
        return true, 0;
      }
      var deficit := cfg.window - b.tokens;
      var wait := deficit / cfg.requests;
      if wait <= 0 {
        wait := 1;
      }
      return false, wait;
    }
  }

  // -------------------------------------------------------------- whole runs

  function New(now: Time): State {
    State(map[], now)
  }

  function After(cfg: Config, st: State, calls: seq<Call>): State
    decreases calls
  {
    if calls == [] then st else After(cfg, Step(cfg, st, calls[0]).0, calls[1..])
  }

  function Answers(cfg: Config, st: State, calls: seq<Call>): (answers: seq<Answer>)
    ensures |answers| == |calls|
    decreases calls
  {
    if calls == [] then [] else
      var (st', answer) := Step(cfg, st, calls[0]);
      [answer] + Answers(cfg, st', calls[1..])
  }

  /** The clock starts no earlier than t and never goes back. */
  ghost predicate Ordered(t: Time, calls: seq<Call>)
    decreases calls
  {
    calls != [] ==> t <= calls[0].now && Ordered(calls[0].now, calls[1..])
  }

  /** How many calls for the key were admitted at times from..to. */
  function Admitted(calls: seq<Call>, answers: seq<Answer>, key: Key, from: Time, to: Time): nat
    requires |calls| == |answers|
  {
    if calls == [] then 0 else
      (if calls[0].key == key && answers[0].allowed && from <= calls[0].now <= to then 1 else 0)
      + Admitted(calls[1..], answers[1..], key, from, to)
  }

  // -------------------------------------------------------- state invariants

  /** Holds of every state a run reaches, at every time from its last call on. */
  ghost predicate Inv(cfg: Config, st: State, now: Time) {
    && st.lastSweep <= now
    && forall k :: k in st.buckets ==> BucketInv(cfg, st.buckets[k], st.lastSweep, now)
  }

  ghost predicate BucketInv(cfg: Config, b: Bucket, lastSweep: Time, now: Time) {
    && cfg.Enabled()
    && 0 <= b.tokens <= cfg.Burst()
    && b.last <= now
    && (cfg.idleTTL > 0 ==> lastSweep - b.last < cfg.idleTTL)
  }

  lemma Gain(rate: int, dt: int)
    requires rate > 0
    ensures dt >= 0 ==> rate * dt >= dt
    ensures dt >= 0 ==> rate * dt >= 0
  {
    if dt >= 0 {
      GainMonotone(rate - 1, 0, dt);
      assert rate * dt == (rate - 1) * dt + dt;
    }
  }

  lemma GainMonotone(rate: int, x: int, y: int)
    requires rate >= 0 && x <= y
    ensures rate * x <= rate * y
  {}

  lemma GainAdds(rate: int, x: int, y: int)
    ensures rate * (x + y) == rate * x + rate * y
  {}

  lemma CurrentInv(cfg: Config, st: State, key: Key, now: Time)
    requires cfg.Enabled() && Inv(cfg, st, now)
    ensures Current(cfg, st, key, now).last == now
    ensures 0 <= Current(cfg, st, key, now).tokens <= cfg.Burst()
  {
    GainMonotone(cfg.requests, 0, cfg.window);
    if key in st.buckets {
      assert BucketInv(cfg, st.buckets[key], st.lastSweep, now);
      Gain(cfg.requests, now - st.buckets[key].last);
    }
  }

  lemma SweepKeepsInv(cfg: Config, st: State, now: Time)
    requires Inv(cfg, st, now)
    ensures Inv(cfg, Sweep(cfg, st, now), now)
    ensures !SweepDue(cfg, Sweep(cfg, st, now), now)
  {
    forall k | k in Sweep(cfg, st, now).buckets
      ensures BucketInv(cfg, Sweep(cfg, st, now).buckets[k], Sweep(cfg, st, now).lastSweep, now)
    {
      assert BucketInv(cfg, st.buckets[k], st.lastSweep, now);
    }
  }

  lemma InvLater(cfg: Config, st: State, t: Time, now: Time)
    requires Inv(cfg, st, t) && t <= now
    ensures Inv(cfg, st, now)
  {
    forall k | k in st.buckets
      ensures BucketInv(cfg, st.buckets[k], st.lastSweep, now)
    {
      assert BucketInv(cfg, st.buckets[k], st.lastSweep, t);
    }
  }

  lemma StepKeepsInv(cfg: Config, st: State, t: Time, c: Call)
    requires Inv(cfg, st, t) && t <= c.now
    ensures Inv(cfg, Step(cfg, st, c).0, c.now)
    ensures !SweepDue(cfg, Step(cfg, st, c).0, c.now)
  {
    InvLater(cfg, st, t, c.now);
    SweepKeepsInv(cfg, st, c.now);
    if cfg.Enabled() {
      var swept := Sweep(cfg, st, c.now);
      CurrentInv(cfg, swept, c.key, c.now);
      var st' := Step(cfg, st, c).0;
      forall k | k in st'.buckets
        ensures BucketInv(cfg, st'.buckets[k], st'.lastSweep, c.now)
      {
        if k != c.key { assert BucketInv(cfg, swept.buckets[k], swept.lastSweep, c.now); }
      }
    }
  }

  lemma {:induction false} AfterKeepsInv(cfg: Config, st: State, t: Time, calls: seq<Call>)
    requires Inv(cfg, st, t) && Ordered(t, calls)
    ensures Inv(cfg, After(cfg, st, calls), if calls == [] then t else calls[|calls| - 1].now)
    decreases calls
  {
    if calls != [] {
      StepKeepsInv(cfg, st, t, calls[0]);
      AfterKeepsInv(cfg, Step(cfg, st, calls[0]).0, calls[0].now, calls[1..]);
    }
  }

  /** In every run over any mix of keys every balance stays between empty and burst. */
  lemma BalancesBounded(cfg: Config, t0: Time, calls: seq<Call>, key: Key)
    requires Ordered(t0, calls)
    requires key in After(cfg, New(t0), calls).buckets
    ensures cfg.Enabled() && 0 <= After(cfg, New(t0), calls).buckets[key].tokens <= cfg.requests * cfg.window
  {
    AfterKeepsInv(cfg, New(t0), t0, calls);
    var st := After(cfg, New(t0), calls);
    assert BucketInv(cfg, st.buckets[key], st.lastSweep, if calls == [] then t0 else calls[|calls| - 1].now);
  }

  // ------------------------------------------- the balance a state stands for

  /** What a key could spend at time t: its refilled balance, or a full one when it has no bucket. */
  function Balance(cfg: Config, st: State, key: Key, t: Time): int {
    if key in st.buckets
    then Min(cfg.Burst(), st.buckets[key].tokens + cfg.requests * (t - st.buckets[key].last))
    else cfg.Burst()
  }

  lemma BalanceIsCurrent(cfg: Config, st: State, key: Key, now: Time)
    requires cfg.Enabled() && Inv(cfg, st, now)
    ensures Current(cfg, st, key, now) == Bucket(Balance(cfg, st, key, now), now)
  {
    CurrentInv(cfg, st, key, now);
    if key in st.buckets {
      assert BucketInv(cfg, st.buckets[key], st.lastSweep, now);
    }
  }

  /** Balances grow by rate * elapsed up to the cap, whatever the bucket's own timestamp is. */
  lemma BalanceLater(cfg: Config, st: State, key: Key, t: Time, now: Time)
    requires cfg.Enabled() && Inv(cfg, st, t) && t <= now
    ensures Balance(cfg, st, key, now) == Min(cfg.Burst(), Balance(cfg, st, key, t) + cfg.requests * (now - t))
  {
    Gain(cfg.requests, now - t);
    if key in st.buckets {
      GainAdds(cfg.requests, t - st.buckets[key].last, now - t);
    }
  }

  /** A sweep never lowers a balance, and changes none when the limiter is transparent. */
  lemma SweepBalance(cfg: Config, st: State, key: Key, now: Time)
    requires cfg.Enabled() && Inv(cfg, st, now)
    ensures Balance(cfg, st, key, now) <= Balance(cfg, Sweep(cfg, st, now), key, now)
    ensures cfg.Transparent() ==> Balance(cfg, st, key, now) == Balance(cfg, Sweep(cfg, st, now), key, now)
  {
    if key in st.buckets && key !in Sweep(cfg, st, now).buckets && cfg.Transparent() {
      assert BucketInv(cfg, st.buckets[key], st.lastSweep, now);
      GainMonotone(cfg.requests, cfg.window, now - st.buckets[key].last);
    }
  }

  /** A call is decided by its key's balance after the sweep, and spends one token of that key only. */
  lemma StepSpends(cfg: Config, st: State, t: Time, c: Call, key: Key)
    requires cfg.Enabled() && Inv(cfg, st, t) && t <= c.now
    ensures var offered := Balance(cfg, Sweep(cfg, st, c.now), key, c.now);
            var (st', answer) := Step(cfg, st, c);
            && (key == c.key ==> answer == Verdict(cfg, offered))
            && Balance(cfg, st', key, c.now) ==
               offered - (if key == c.key && answer.allowed then cfg.window else 0)
  {
    InvLater(cfg, st, t, c.now);
    SweepKeepsInv(cfg, st, c.now);
    BalanceIsCurrent(cfg, Sweep(cfg, st, c.now), c.key, c.now);
    assert cfg.requests * (c.now - c.now) == 0;
  }

  // --------------------------------------------------- bound on admitted calls

  lemma {:induction false} NoneAdmittedAfter(calls: seq<Call>, answers: seq<Answer>, key: Key, from: Time, to: Time)
    requires |calls| == |answers| && Ordered(to + 1, calls)
    ensures Admitted(calls, answers, key, from, to) == 0
  {
    if calls != [] {
      OrderedEarlier(to + 1, calls[0].now, calls[1..]);
      NoneAdmittedAfter(calls[1..], answers[1..], key, from, to);
    }
  }

  lemma OrderedEarlier(t: Time, t': Time, calls: seq<Call>)
    requires t <= t' && Ordered(t', calls)
    ensures Ordered(t, calls)
  {}

  /** From time t on, admissions are paid for by the balance at t and the refill since. */
  lemma {:induction false} AdmittedFrom(cfg: Config, st: State, t: Time, calls: seq<Call>, key: Key, from: Time, to: Time)
    requires cfg.Enabled() && cfg.Transparent() && Inv(cfg, st, t) && Ordered(t, calls) && t <= to
    ensures Admitted(calls, Answers(cfg, st, calls), key, from, to) * cfg.window
         <= Balance(cfg, st, key, t) + cfg.requests * (to - t)
    decreases calls
  {
    Gain(cfg.requests, to - t);
    BalanceNonNegative(cfg, st, key, t);
    if calls != [] {
      var c := calls[0];
      if c.now > to {
        NoneAdmittedAfter(calls, Answers(cfg, st, calls), key, from, to);
      } else {
        var (st', answer) := Step(cfg, st, c);
        StepKeepsInv(cfg, st, t, c);
        AdmittedFrom(cfg, st', c.now, calls[1..], key, from, to);
        InvLater(cfg, st, t, c.now);
        SweepBalance(cfg, st, key, c.now);
        StepSpends(cfg, st, t, c, key);
        BalanceLater(cfg, st, key, t, c.now);
        GainAdds(cfg.requests, c.now - t, to - c.now);
        AdmittedStep(calls, Answers(cfg, st, calls), key, from, to, cfg.window);
      }
    }
  }

  lemma BalanceNonNegative(cfg: Config, st: State, key: Key, t: Time)
    requires cfg.Enabled() && Inv(cfg, st, t)
    ensures 0 <= Balance(cfg, st, key, t) <= cfg.Burst()
  {
    BalanceIsCurrent(cfg, st, key, t);
    CurrentInv(cfg, st, key, t);
  }

  lemma AdmittedStep(calls: seq<Call>, answers: seq<Answer>, key: Key, from: Time, to: Time, unit: int)
    requires |calls| == |answers| && calls != [] && unit >= 0
    ensures Admitted(calls, answers, key, from, to) * unit <=
            (if calls[0].key == key && answers[0].allowed then unit else 0)
            + Admitted(calls[1..], answers[1..], key, from, to) * unit
  {
    var n := Admitted(calls[1..], answers[1..], key, from, to);
    assert (n + 1) * unit == n * unit + unit;
  }

  /** The same for an interval that has not begun yet, from a balance of at most burst. */
  lemma {:induction false} AdmittedWithin(cfg: Config, st: State, t: Time, calls: seq<Call>, key: Key, from: Time, to: Time)
    requires cfg.Enabled() && cfg.Transparent() && Inv(cfg, st, t) && Ordered(t, calls) && from <= to
    ensures Admitted(calls, Answers(cfg, st, calls), key, from, to) * cfg.window
         <= cfg.requests * cfg.window + cfg.requests * (to - from)
    decreases calls
  {
    Gain(cfg.requests, to - from);
    GainMonotone(cfg.requests, 0, cfg.window);
    if calls != [] {
      var c := calls[0];
      if c.now < from {
        StepKeepsInv(cfg, st, t, c);
        AdmittedWithin(cfg, Step(cfg, st, c).0, c.now, calls[1..], key, from, to);
      } else if c.now > to {
        NoneAdmittedAfter(calls, Answers(cfg, st, calls), key, from, to);
      } else {
        InvLater(cfg, st, t, c.now);
        AdmittedFrom(cfg, st, c.now, calls, key, from, to);
        BalanceNonNegative(cfg, st, key, c.now);
        GainMonotone(cfg.requests, to - c.now, to - from);
      }
    }
  }

  /**
   In every run, the calls admitted for one key at times from..to number at most
   burst + rate * (to - from); both sides are multiplied by the window.
   */
  lemma AdmissionBound(cfg: Config, t0: Time, calls: seq<Call>, key: Key, from: Time, to: Time)
    requires cfg.Transparent() && Ordered(t0, calls) && from <= to
    ensures cfg.Enabled() ==>
              Admitted(calls, Answers(cfg, New(t0), calls), key, from, to) * cfg.window
              <= cfg.requests * cfg.window + cfg.requests * (to - from)
    ensures !cfg.Enabled() ==> Admitted(calls, Answers(cfg, New(t0), calls), key, from, to) == 0
  {
    if cfg.Enabled() {
      AdmittedWithin(cfg, New(t0), t0, calls, key, from, to);
    } else {
      DisabledAdmitsNone(cfg, New(t0), calls, key, from, to);
    }
  }

  lemma {:induction false} DisabledAdmitsNone(cfg: Config, st: State, calls: seq<Call>, key: Key, from: Time, to: Time)
    requires !cfg.Enabled()
    ensures Admitted(calls, Answers(cfg, st, calls), key, from, to) == 0
    decreases calls
  {
    if calls != [] {
      DisabledAdmitsNone(cfg, Step(cfg, st, calls[0]).0, calls[1..], key, from, to);
    }
  }

  // ------------------------------------------- sweeping cannot be noticed, iff

  function NeverEvicting(cfg: Config): Config {
    cfg.(idleTTL := 0)
  }

  ghost predicate SameBalances(cfg: Config, st: State, st': State, t: Time) {
    forall k :: Balance(cfg, st, k, t) == Balance(cfg, st', k, t)
  }

  lemma SameOffer(cfg: Config, st: State, st': State, t: Time, now: Time, key: Key)
    requires cfg.Enabled() && cfg.Transparent() && t <= now
    requires Inv(cfg, st, t) && Inv(NeverEvicting(cfg), st', t)
    requires Balance(cfg, st, key, t) == Balance(cfg, st', key, t)
    ensures Balance(cfg, Sweep(cfg, st, now), key, now) == Balance(cfg, Sweep(NeverEvicting(cfg), st', now), key, now)
  {
    InvLater(cfg, st, t, now);
    BalanceLater(cfg, st, key, t, now);
    BalanceLater(NeverEvicting(cfg), st', key, t, now);
    SweepBalance(cfg, st, key, now);
  }

  lemma SameStep(cfg: Config, st: State, st': State, t: Time, c: Call, key: Key)
    requires cfg.Enabled() && cfg.Transparent() && t <= c.now
    requires Inv(cfg, st, t) && Inv(NeverEvicting(cfg), st', t)
    requires Balance(cfg, st, key, t) == Balance(cfg, st', key, t)
    requires key != c.key ==> Step(cfg, st, c).1 == Step(NeverEvicting(cfg), st', c).1
    ensures Step(cfg, st, c).1 == Step(NeverEvicting(cfg), st', c).1
    ensures Balance(cfg, Step(cfg, st, c).0, key, c.now) == Balance(cfg, Step(NeverEvicting(cfg), st', c).0, key, c.now)
  {
    SameOffer(cfg, st, st', t, c.now, key);
    StepSpends(cfg, st, t, c, key);
    StepSpends(NeverEvicting(cfg), st', t, c, key);
  }

  lemma {:induction false} SameAnswers(cfg: Config, st: State, st': State, t: Time, calls: seq<Call>)
    requires cfg.Enabled() && cfg.Transparent() && Ordered(t, calls)
    requires Inv(cfg, st, t) && Inv(NeverEvicting(cfg), st', t) && SameBalances(cfg, st, st', t)
    ensures Answers(cfg, st, calls) == Answers(NeverEvicting(cfg), st', calls)
    decreases calls
  {
    if calls != [] {
      var c, cfg' := calls[0], NeverEvicting(cfg);
      var next, next' := Step(cfg, st, c).0, Step(cfg', st', c).0;
      StepKeepsInv(cfg, st, t, c);
      StepKeepsInv(cfg', st', t, c);
      SameStep(cfg, st, st', t, c, c.key);
      forall k
        ensures Balance(cfg, next, k, c.now) == Balance(cfg, next', k, c.now)
      {
        SameStep(cfg, st, st', t, c, k);
      }
      SameAnswers(cfg, next, next', c.now, calls[1..]);
    }
  }

  lemma {:induction false} DisabledAnswers(cfg: Config, st: State, st': State, calls: seq<Call>)
    requires !cfg.Enabled()
    ensures Answers(cfg, st, calls) == Answers(NeverEvicting(cfg), st', calls)
    decreases calls
  {
    if calls != [] {
      DisabledAnswers(cfg, Step(cfg, st, calls[0]).0, Step(NeverEvicting(cfg), st', calls[0]).0, calls[1..]);
    }
  }

  /** n calls for one key at one moment. */
  function Repeat(key: Key, now: Time, n: nat): seq<Call> {
    if n == 0 then [] else [Call(key, now)] + Repeat(key, now, n - 1)
  }

  /** A balance of n tokens admits n calls at once. */
  lemma {:induction false} RepeatAdmitted(cfg: Config, st: State, t: Time, key: Key, now: Time, n: nat,
                                          more: seq<Call>, from: Time, to: Time)
    requires cfg.Enabled() && Inv(cfg, st, t) && t <= now && from <= now <= to
    requires Balance(cfg, Sweep(cfg, st, now), key, now) >= cfg.window * n
    ensures var calls := Repeat(key, now, n) + more;
            var rest := After(cfg, st, Repeat(key, now, n));
            && Inv(cfg, rest, now)
            && Admitted(calls, Answers(cfg, st, calls), key, from, to)
               == n + Admitted(more, Answers(cfg, rest, more), key, from, to)
    decreases n
  {
    var calls := Repeat(key, now, n) + more;
    if n == 0 {
      assert calls == more;
      InvLater(cfg, st, t, now);
    } else {
      var c := Call(key, now);
      GainAdds(cfg.window, n - 1, 1);
      Gain(cfg.window, n - 1);
      assert Repeat(key, now, n)[1..] == Repeat(key, now, n - 1);
      assert calls[0] == c && calls[1..] == Repeat(key, now, n - 1) + more;
      StepSpends(cfg, st, t, c, key);
      StepKeepsInv(cfg, st, t, c);
      RepeatAdmitted(cfg, Step(cfg, st, c).0, now, key, now, n - 1, more, from, to);
    }
  }

  lemma {:induction false} RepeatOrdered(t: Time, key: Key, now: Time, n: nat, more: seq<Call>)
    requires t <= now && Ordered(now, more)
    ensures Ordered(t, Repeat(key, now, n) + more)
    decreases n
  {
    var calls := Repeat(key, now, n) + more;
    if n == 0 {
      assert calls == more;
      OrderedEarlier(t, now, more);
    } else {
      assert calls[0].now == now && calls[1..] == Repeat(key, now, n - 1) + more;
      RepeatOrdered(now, key, now, n - 1, more);
    }
  }

  /** burst calls at time 0 and burst calls when the first sweep is due. */
  function Exhaust(cfg: Config, key: Key): seq<Call>
    requires cfg.Enabled()
  {
    Repeat(key, 0, cfg.requests) + Repeat(key, cfg.idleTTL, cfg.requests)
  }

  /** When 0 < idleTTL < window the sweep forgets a debt: twice the burst is admitted. */
  lemma ExhaustAdmitted(cfg: Config, key: Key)
    requires !cfg.Transparent()
    ensures Ordered(0, Exhaust(cfg, key))
    ensures Admitted(Exhaust(cfg, key), Answers(cfg, New(0), Exhaust(cfg, key)), key, 0, cfg.idleTTL)
            == 2 * cfg.requests
  {
    var n, idle := cfg.requests, cfg.idleTTL;
    var second := Repeat(key, idle, n);
    assert second + [] == second;
    RepeatOrdered(0, key, idle, n, []);
    RepeatOrdered(0, key, 0, n, second);
    RepeatAdmitted(cfg, New(0), 0, key, 0, n, second, 0, idle);
    var rest := After(cfg, New(0), Repeat(key, 0, n));
    assert key !in Sweep(cfg, rest, idle).buckets by {
      if key in rest.buckets { assert BucketInv(cfg, rest.buckets[key], rest.lastSweep, 0); }
    }
    RepeatAdmitted(cfg, rest, 0, key, idle, n, [], 0, idle);
  }

  /** Every run of the sweeping limiter gets the answers of one that never evicts. */
  ghost predicate SweepUnnoticed(cfg: Config) {
    forall t0: Time, calls: seq<Call> :: Ordered(t0, calls) ==>
      Answers(cfg, New(t0), calls) == Answers(NeverEvicting(cfg), New(t0), calls)
  }

  /** Every run keeps the admission bound. */
  ghost predicate BoundKept(cfg: Config) {
    forall t0: Time, calls: seq<Call>, key: Key, from: Time, to: Time :: Ordered(t0, calls) && from <= to ==>
      Admitted(calls, Answers(cfg, New(t0), calls), key, from, to) * cfg.window
      <= cfg.requests * cfg.window + cfg.requests * (to - from)
  }

  /** "Dropping an idle bucket is equivalent to keeping it" holds exactly when the limiter is transparent. */
  lemma SweepUnnoticedIff(cfg: Config)
    ensures SweepUnnoticed(cfg) <==> cfg.Transparent()
  {
    if cfg.Transparent() {
      forall t0: Time, calls: seq<Call> | Ordered(t0, calls)
        ensures Answers(cfg, New(t0), calls) == Answers(NeverEvicting(cfg), New(t0), calls)
      {
        if cfg.Enabled() {
          SameAnswers(cfg, New(t0), New(t0), t0, calls);
        } else {
          DisabledAnswers(cfg, New(t0), New(t0), calls);
        }
      }
    } else {
      ExhaustAdmitted(cfg, "k");
      AdmissionBound(NeverEvicting(cfg), 0, Exhaust(cfg, "k"), "k", 0, cfg.idleTTL);
      ExhaustExceeds(cfg);
    }
  }

  lemma ExhaustExceeds(cfg: Config)
    requires !cfg.Transparent()
    ensures 2 * cfg.requests * cfg.window > cfg.requests * cfg.window + cfg.requests * cfg.idleTTL
  {
    GainAdds(cfg.requests, cfg.idleTTL, cfg.window - cfg.idleTTL);
    Gain(cfg.requests, cfg.window - cfg.idleTTL);
  }

  /** The admission bound over all runs also holds exactly then, on an enabled limiter. */
  lemma BoundKeptIff(cfg: Config)
    requires cfg.Enabled()
    ensures BoundKept(cfg) <==> cfg.Transparent()
  {
    if cfg.Transparent() {
      forall t0: Time, calls: seq<Call>, key: Key, from: Time, to: Time | Ordered(t0, calls) && from <= to
        ensures Admitted(calls, Answers(cfg, New(t0), calls), key, from, to) * cfg.window
             <= cfg.requests * cfg.window + cfg.requests * (to - from)
      {
        AdmissionBound(cfg, t0, calls, key, from, to);
      }
    } else {
      var calls := Exhaust(cfg, "k");
      ExhaustAdmitted(cfg, "k");
      ExhaustExceeds(cfg);
      assert Admitted(calls, Answers(cfg, New(0), calls), "k", 0, cfg.idleTTL) * cfg.window
          > cfg.requests * cfg.window + cfg.requests * (cfg.idleTTL - 0);
    }
  }

  // --------------------------------------------------- live buckets are recent

  /** Every bucket was last touched by a past call for its key. */
  ghost predicate TouchedBy(st: State, past: seq<Call>) {
    forall k :: k in st.buckets ==> exists i :: 0 <= i < |past| && past[i] == Call(k, st.buckets[k].last)
  }

  lemma StepTouches(cfg: Config, st: State, t: Time, c: Call, past: seq<Call>)
    requires Inv(cfg, st, t) && t <= c.now && TouchedBy(st, past)
    ensures TouchedBy(Step(cfg, st, c).0, past + [c])
  {
    InvLater(cfg, st, t, c.now);
    SweepKeepsInv(cfg, st, c.now);
    if cfg.Enabled() { CurrentInv(cfg, Sweep(cfg, st, c.now), c.key, c.now); }
    var st', past' := Step(cfg, st, c).0, past + [c];
    forall k | k in st'.buckets
      ensures exists i :: 0 <= i < |past'| && past'[i] == Call(k, st'.buckets[k].last)
    {
      if cfg.Enabled() && k == c.key {
        assert past'[|past|] == Call(k, st'.buckets[k].last);
      } else {
        var i :| 0 <= i < |past| && past[i] == Call(k, st.buckets[k].last);
        assert past'[i] == Call(k, st'.buckets[k].last);
      }
    }
  }

  lemma {:induction false} AfterTouches(cfg: Config, st: State, t: Time, past: seq<Call>, calls: seq<Call>)
    requires Inv(cfg, st, t) && Ordered(t, calls) && TouchedBy(st, past)
    requires calls == [] ==> !SweepDue(cfg, st, t)
    ensures TouchedBy(After(cfg, st, calls), past + calls)
    ensures !SweepDue(cfg, After(cfg, st, calls), if calls == [] then t else calls[|calls| - 1].now)
    decreases calls
  {
    if calls == [] {
      assert past + calls == past;
    } else {
      StepTouches(cfg, st, t, calls[0], past);
      StepKeepsInv(cfg, st, t, calls[0]);
      AfterTouches(cfg, Step(cfg, st, calls[0]).0, calls[0].now, past + [calls[0]], calls[1..]);
      assert past + [calls[0]] + calls[1..] == past + calls;
    }
  }

  /** After every call, each live bucket's key was used within the last 2 * idleTTL. */
  lemma LiveBucketsRecent(cfg: Config, t0: Time, calls: seq<Call>, key: Key) returns (i: nat)
    requires cfg.idleTTL > 0 && Ordered(t0, calls) && calls != []
    requires key in After(cfg, New(t0), calls).buckets
    ensures i < |calls| && calls[i].key == key
    ensures calls[|calls| - 1].now - calls[i].now < 2 * cfg.idleTTL
  {
    var st, now := After(cfg, New(t0), calls), calls[|calls| - 1].now;
    AfterKeepsInv(cfg, New(t0), t0, calls);
    AfterTouches(cfg, New(t0), t0, [], calls);
    assert [] + calls == calls;
    assert BucketInv(cfg, st.buckets[key], st.lastSweep, now);
    i :| 0 <= i < |calls| && calls[i] == Call(key, st.buckets[key].last);
  }

  // ------------------------------------------------------------- Retry-After

  /** However often it polls, a key that cannot afford a token before `deadline` is refused until then. */
  lemma {:induction false} RefusedUntil(cfg: Config, st: State, t: Time, key: Key, deadline: Time, calls: seq<Call>, i: nat)
    requires cfg.Enabled() && cfg.Transparent() && Inv(cfg, st, t) && Ordered(t, calls)
    requires Balance(cfg, st, key, t) + cfg.requests * (deadline - 1 - t) < cfg.window
    requires i < |calls| && calls[i].key == key && calls[i].now < deadline
    ensures !Answers(cfg, st, calls)[i].allowed
    decreases calls
  {
    var c := calls[0];
    OrderedIndex(t, calls, i);
    InvLater(cfg, st, t, c.now);
    BalanceLater(cfg, st, key, t, c.now);
    SweepBalance(cfg, st, key, c.now);
    StepSpends(cfg, st, t, c, key);
    GainAdds(cfg.requests, c.now - t, deadline - 1 - c.now);
    Gain(cfg.requests, deadline - 1 - c.now);
    if i > 0 {
      StepKeepsInv(cfg, st, t, c);
      RefusedUntil(cfg, Step(cfg, st, c).0, c.now, key, deadline, calls[1..], i - 1);
    }
  }

  lemma {:induction false} OrderedIndex(t: Time, calls: seq<Call>, i: nat)
    requires Ordered(t, calls) && i < |calls|
    ensures t <= calls[0].now <= calls[i].now
    decreases calls
  {
    if i > 0 { OrderedIndex(calls[0].now, calls[1..], i - 1); }
  }

  /** A balance that holds a token, or will after this wait. */
  predicate DueIn(cfg: Config, balance: int, wait: Time) {
    balance >= cfg.window || balance + cfg.requests * wait >= cfg.window
  }

  /** What the next call is offered is due no later, and there once the time has come. */
  lemma OfferedInTime(cfg: Config, st: State, t: Time, key: Key, due: Time, now: Time)
    requires cfg.Enabled() && Inv(cfg, st, t) && t <= now && DueIn(cfg, Balance(cfg, st, key, t), due - t)
    ensures var offered := Balance(cfg, Sweep(cfg, st, now), key, now);
            DueIn(cfg, offered, due - now) && (due <= now ==> offered >= cfg.window)
  {
    InvLater(cfg, st, t, now);
    BalanceLater(cfg, st, key, t, now);
    SweepBalance(cfg, st, key, now);
    GainAdds(cfg.requests, now - t, due - now);
    Gain(cfg.requests, now - t);
    BurstHoldsAToken(cfg);
    if due <= now { GainMonotone(cfg.requests, due - t, now - t); }
  }

  /** With none of its own calls admitted meanwhile, a key is admitted once its token is due. */
  lemma {:induction false} AdmittedOnceDue(cfg: Config, st: State, t: Time, key: Key, due: Time, calls: seq<Call>, i: nat)
    requires cfg.Enabled() && Inv(cfg, st, t) && Ordered(t, calls)
    requires DueIn(cfg, Balance(cfg, st, key, t), due - t)
    requires i < |calls| && calls[i].key == key && due <= calls[i].now
    requires forall j :: 0 <= j < i && calls[j].key == key ==> !Answers(cfg, st, calls)[j].allowed
    ensures Answers(cfg, st, calls)[i].allowed
    decreases calls
  {
    var c := calls[0];
    OrderedIndex(t, calls, i);
    OfferedInTime(cfg, st, t, key, due, c.now);
    StepSpends(cfg, st, t, c, key);
    if i > 0 {
      var st', answers := Step(cfg, st, c).0, Answers(cfg, st, calls);
      StepKeepsInv(cfg, st, t, c);
      forall j | 0 <= j < i - 1 && calls[1..][j].key == key
        ensures !Answers(cfg, st', calls[1..])[j].allowed
      {
        assert answers[j + 1] == Answers(cfg, st', calls[1..])[j];
      }
      AdmittedOnceDue(cfg, st', c.now, key, due, calls[1..], i - 1);
    }
  }

  lemma BurstHoldsAToken(cfg: Config)
    requires cfg.Enabled()
    ensures cfg.Burst() >= cfg.window
  {
    Gain(cfg.requests, cfg.window);
  }

  lemma WaitIsExact(requests: int, deficit: int)
    requires requests > 0 && deficit > 0
    ensures var q := deficit / requests;
            requests * q <= deficit < requests * (q + 1) && q >= 0
  {
    assert deficit == requests * (deficit / requests) + deficit % requests;
    GainAdds(requests, deficit / requests, 1);
    if deficit / requests < 0 { GainMonotone(requests, deficit / requests, -1); }
  }

  /**
   After a refusal with wait w: the key is refused at every tick before now + w however
   often it polls, and with no admission of its own in between it is admitted at any
   call from now + w + 1 on.
   */
  lemma RetryAfterHonest(cfg: Config, t0: Time, past: seq<Call>, c: Call, future: seq<Call>, i: nat)
    requires cfg.Enabled() && Ordered(t0, past)
    requires Ordered(if past == [] then t0 else past[|past| - 1].now, [c] + future)
    requires !Step(cfg, After(cfg, New(t0), past), c).1.allowed
    requires i < |future| && future[i].key == c.key
    ensures var (st, refusal) := Step(cfg, After(cfg, New(t0), past), c);
            var answers := Answers(cfg, st, future);
            && refusal.retryAfter > 0
            && (cfg.Transparent() && future[i].now < c.now + refusal.retryAfter ==> !answers[i].allowed)
            && (future[i].now >= c.now + refusal.retryAfter + 1
                && (forall j :: 0 <= j < i && future[j].key == c.key ==> !answers[j].allowed)
                ==> answers[i].allowed)
  {
    var t := if past == [] then t0 else past[|past| - 1].now;
    var before := After(cfg, New(t0), past);
    var (st, refusal) := Step(cfg, before, c);
    var w := refusal.retryAfter;
    assert ([c] + future)[0] == c && ([c] + future)[1..] == future;
    AfterKeepsInv(cfg, New(t0), t0, past);
    StepKeepsInv(cfg, before, t, c);
    StepSpends(cfg, before, t, c, c.key);
    var deficit := cfg.window - Balance(cfg, st, c.key, c.now);
    WaitIsExact(cfg.requests, deficit);
    if cfg.Transparent() && future[i].now < c.now + w {
      GainAdds(cfg.requests, w - 1, 1);
      RefusedUntil(cfg, st, c.now, c.key, c.now + w, future, i);
    }
    if future[i].now >= c.now + w + 1
       && forall j :: 0 <= j < i && future[j].key == c.key ==> !Answers(cfg, st, future)[j].allowed {
      GainMonotone(cfg.requests, deficit / cfg.requests + 1, w + 1);
      AdmittedOnceDue(cfg, st, c.now, c.key, c.now + w + 1, future, i);
    }
  }

  /** The header: the least whole number of seconds that covers the wait, and at least 1. */
  function RetryAfterSeconds(wait: Time): (secs: int)
    ensures secs >= 1 && secs * SECOND >= wait
    ensures forall s: int :: s >= 1 && s * SECOND >= wait ==> s >= secs
  {
    var secs := (wait + SECOND - 1) / SECOND;
    if secs < 1 then 1 else secs
  }

  /** A disabled limiter refuses every call of every run, for a second. */
  lemma {:induction false} DisabledRefusesAll(cfg: Config, st: State, calls: seq<Call>, i: nat)
    requires !cfg.Enabled() && i < |calls|
    ensures Answers(cfg, st, calls)[i] == Answer(false, SECOND)
    ensures RetryAfterSeconds(Answers(cfg, st, calls)[i].retryAfter) == 1
    decreases i
  {
    if i > 0 { DisabledRefusesAll(cfg, Step(cfg, st, calls[0]).0, calls[1..], i - 1); }
  }
}
