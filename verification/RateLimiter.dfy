/**
 * The per-client token buckets of the public HTTP API and their idle eviction
 * (internal/api/middleware_limits.go).
 *
 * Times are nanoseconds counted from Go's zero `time.Time`, so 0 is the instant
 * for which `IsZero` holds.  Tokens are kept exactly, scaled so that a bucket of
 * `rpm` requests per minute gains `rpm` units per nanosecond.
 */
module RateLimiter {

  const SWEEP_INTERVAL: int := 60_000_000_000
  const IDLE_EVICTION: int := 600_000_000_000
  const MAX_DURATION: int := 0x7fff_ffff_ffff_ffff

  /** `n` whole tokens in scaled units: a minute of nanoseconds each. */
  function Tokens(n: int): int {
    n * 60_000_000_000
  }

  datatype Bucket = Bucket(tokens: int, last: int)

  datatype State = State(buckets: map<string, Bucket>, lastSweep: int)

  datatype Call = Call(key: string, rpm: int, burst: int, now: int)

  const INITIAL := State(map[], 0)

  /** `time.Time.Sub`, which saturates at the largest and smallest durations. */
  function Sub(a: int, b: int): int {
    if a - b > MAX_DURATION then MAX_DURATION
    else if a - b < -MAX_DURATION - 1 then -MAX_DURATION - 1
    else a - b
  }

  /** The difference, or the 64-bit duration closest to it. */
  lemma SubIsClosest(a: int, b: int)
    ensures -9_223_372_036_854_775_808 <= Sub(a, b) <= 9_223_372_036_854_775_807
    ensures a - b > 9_223_372_036_854_775_807 ==> Sub(a, b) == 9_223_372_036_854_775_807
    ensures a - b < -9_223_372_036_854_775_808 ==> Sub(a, b) == -9_223_372_036_854_775_808
    ensures -9_223_372_036_854_775_808 <= a - b <= 9_223_372_036_854_775_807 ==> Sub(a, b) == a - b
  {
  }

  function EffectiveBurst(burst: int): int {
    if burst <= 0 then 1 else burst
  }

  function SweepSpec(s: State, now: int): State {
    if Sub(now, s.lastSweep) < SWEEP_INTERVAL then s
    else State(map key | key in s.buckets && Sub(now, s.buckets[key].last) < IDLE_EVICTION :: s.buckets[key], now)
  }

  /** Refill, cap and charge one bucket; a zero bucket starts full. */
  function Charge(stored: Bucket, rpm: int, burst: int, now: int): (Bucket, bool) {
    var b := if stored.last == 0 then Bucket(Tokens(burst), now) else stored;
    var elapsed := Sub(now, b.last);
    var refilled := if elapsed > 0 then b.tokens + elapsed * rpm else b.tokens;
    var tokens := if elapsed > 0 && refilled > Tokens(burst) then Tokens(burst) else refilled;
    if tokens < Tokens(1) then (Bucket(tokens, now), false) else (Bucket(tokens - Tokens(1), now), true)
  }

  function Lookup(s: State, key: string): Bucket {
    if key in s.buckets then s.buckets[key] else Bucket(0, 0)
  }

  /** One call of `allow`; `sweeping` is false for the limiter that never evicts. */
  function Step(s: State, c: Call, sweeping: bool): (State, bool) {
    if c.rpm <= 0 then (s, true)
    else
      var swept := if sweeping then SweepSpec(s, c.now) else s;
      var (b, ok) := Charge(Lookup(swept, c.key), c.rpm, EffectiveBurst(c.burst), c.now);
      (swept.(buckets := swept.buckets[c.key := b]), ok)
  }

  class Limiter {
    var buckets: map<string, Bucket>
    var lastSweep: int

    function Value(): State
      reads this
    {
      State(buckets, lastSweep)
    }

    constructor ()
      ensures Value() == INITIAL
    {
      buckets := map[];
      lastSweep := 0;
    }

    method SweepLocked(now: int)
      modifies this
      ensures Value() == SweepSpec(old(Value()), now)
    {
      if Sub(now, lastSweep) < SWEEP_INTERVAL {
        return;
      }
      lastSweep := now;
      var todo := buckets.Keys;
      while todo != {}
        invariant todo <= old(buckets).Keys && lastSweep == now
        invariant buckets == map key | key in old(buckets) &&
                                       (key in todo || Sub(now, old(buckets)[key].last) < IDLE_EVICTION) :: old(buckets)[key]
        decreases |todo|
      {
        var key :| key in todo;
        if Sub(now, buckets[key].last) >= IDLE_EVICTION {
          buckets := buckets - {key};
        }
        todo := todo - {key};
      }
    }

    method Allow(key: string, rpm: int, burst: int, now: int) returns (ok: bool)
      modifies this
      ensures (Value(), ok) == Step(old(Value()), Call(key, rpm, burst, now), true)
    {
      if rpm <= 0 {
        return true;
      }
      var limit := EffectiveBurst(burst);
      SweepLocked(now);
      var b := if key in buckets then buckets[key] else Bucket(0, 0);
      if b.last == 0 {
        b := Bucket(Tokens(limit), now);
      }
      var elapsed := Sub(now, b.last);
      if elapsed > 0 {
        b := b.(tokens := b.tokens + elapsed * rpm);
        if b.tokens > Tokens(limit) {
          b := b.(tokens := Tokens(limit));
        }
      }
      b := b.(last := now);
      if b.tokens < Tokens(1) {
        buckets := buckets[key := b];
        return false;
      }
      b := b.(tokens := b.tokens - Tokens(1));
      buckets := buckets[key := b];
      return true;
    }
  }

  // ---------------------------------------------------------------- runs

  function Decisions(s: State, run: seq<Call>, sweeping: bool): (ds: seq<bool>)
    ensures |ds| == |run|
    decreases |run|
  {
    if run == [] then []
    else
      var (next, ok) := Step(s, run[0], sweeping);
      [ok] + Decisions(next, run[1..], sweeping)
  }

  function After(s: State, run: seq<Call>, sweeping: bool): State
    decreases |run|
  {
    if run == [] then s else After(Step(s, run[0], sweeping).0, run[1..], sweeping)
  }

  /** How many calls for `key` the limiter lets through. */
  function Allowed(s: State, run: seq<Call>, key: string, sweeping: bool): nat
    decreases |run|
  {
    if run == [] then 0
    else
      var (next, ok) := Step(s, run[0], sweeping);
      (if ok && run[0].key == key then 1 else 0) + Allowed(next, run[1..], key, sweeping)
  }

  /** A clock that starts at or after `start` and never runs backwards. */
  ghost predicate ClockedFrom(start: int, run: seq<Call>) {
    && (forall i :: 0 <= i < |run| ==> start <= run[i].now)
    && (forall i, j :: 0 <= i < j < |run| ==> run[i].now <= run[j].now)
  }

  /** Clock readings after the zero time, in any order. */
  ghost predicate Readings(run: seq<Call>) {
    forall i :: 0 <= i < |run| ==> 0 < run[i].now
  }

  /** A clock reading reaches the lock at most `d` after a later one. */
  ghost predicate LateBy(run: seq<Call>, d: int) {
    forall i, j :: 0 <= i < j < |run| ==> run[i].now - d <= run[j].now
  }

  /** A full burst refills in the idle-eviction window less `d`. */
  predicate RefillsWhileIdle(c: Call, d: int) {
    c.rpm <= 0 || Tokens(EffectiveBurst(c.burst)) <= c.rpm * (IDLE_EVICTION - d)
  }

  lemma ClockedTail(start: int, run: seq<Call>)
    requires ClockedFrom(start, run) && run != []
    ensures ClockedFrom(run[0].now, run[1..]) && start <= run[0].now
  {
    var tail := run[1..];
    assert forall i :: 0 <= i < |tail| ==> tail[i] == run[i + 1];
  }

  // ---------------------------------------------------------------- eviction is lossless

  /** The evicting state `sw` and the never-evicting state `un`, when the newest reading so far is `t`. */
  ghost predicate Simulates(sw: State, un: State, t: int) {
    && sw.buckets.Keys <= un.buckets.Keys
    && (forall key :: key in sw.buckets ==> sw.buckets[key] == un.buckets[key])
    && (forall key :: key in un.buckets ==> un.buckets[key].tokens >= 0 && 0 < un.buckets[key].last <= t)
    && (forall key :: key in un.buckets && key !in sw.buckets ==> t - un.buckets[key].last >= IDLE_EVICTION)
  }

  function Max(a: int, b: int): int {
    if a < b then b else a
  }

  lemma SweepSimulates(sw: State, un: State, t: int, now: int)
    requires Simulates(sw, un, t)
    ensures Simulates(SweepSpec(sw, now), un, Max(t, now))
  {
  }

  lemma MulLe(a: int, b: int, k: int)
    requires a <= b && 0 <= k
    ensures a * k <= b * k
  {
  }

  /** A bucket idle long enough to refill charges exactly like a new one. */
  lemma IdleBucketIsFull(b: Bucket, rpm: int, burst: int, now: int, idle: int)
    requires b.tokens >= 0 && 0 < b.last && now - b.last >= idle && idle <= IDLE_EVICTION
    requires 0 < rpm && 0 < burst && Tokens(burst) <= rpm * idle
    ensures Charge(b, rpm, burst, now) == Charge(Bucket(0, 0), rpm, burst, now)
  {
    var elapsed := Sub(now, b.last);
    if idle <= 0 {
      MulLe(idle, 0, rpm);
    }
    MulLe(idle, elapsed, rpm);
    assert Tokens(burst) <= elapsed * rpm;
  }

  lemma StepSimulates(sw: State, un: State, t: int, c: Call, d: int)
    requires Simulates(sw, un, t) && t - d <= c.now && 0 < c.now && 0 <= d && RefillsWhileIdle(c, d)
    ensures Step(sw, c, true).1 == Step(un, c, false).1
    ensures Simulates(Step(sw, c, true).0, Step(un, c, false).0, Max(t, c.now))
  {
    if c.rpm > 0 {
      var swept := SweepSpec(sw, c.now);
      SweepSimulates(sw, un, t, c.now);
      if c.key in un.buckets && c.key !in swept.buckets {
        IdleBucketIsFull(un.buckets[c.key], c.rpm, EffectiveBurst(c.burst), c.now, IDLE_EVICTION - d);
      }
      var b := Charge(Lookup(un, c.key), c.rpm, EffectiveBurst(c.burst), c.now).0;
      assert b.tokens >= 0 && b.last == c.now by { ChargeBounds(Lookup(un, c.key), c.rpm, EffectiveBurst(c.burst), c.now); }
    }
  }

  lemma ChargeBounds(b: Bucket, rpm: int, burst: int, now: int)
    requires 0 < rpm && 0 < burst
    requires b.last == 0 || b.tokens >= 0
    ensures Charge(b, rpm, burst, now).0.tokens >= 0
    ensures Charge(b, rpm, burst, now).0.last == now
    ensures b.last == 0 || b.tokens <= Tokens(burst) ==> Charge(b, rpm, burst, now).0.tokens <= Tokens(burst)
  {
    var b0 := if b.last == 0 then Bucket(Tokens(burst), now) else b;
    var elapsed := Sub(now, b0.last);
    if elapsed > 0 {
      MulLe(0, elapsed, rpm);
    }
  }

  /** Readings may arrive up to `d` late, as long as a burst refills in the window less `d`. */
  lemma {:induction false} SimulationOverRuns(sw: State, un: State, t: int, run: seq<Call>, d: int)
    requires Simulates(sw, un, t) && Readings(run) && LateBy(run, d) && 0 <= d
    requires forall i :: 0 <= i < |run| ==> t - d <= run[i].now && RefillsWhileIdle(run[i], d)
    ensures Decisions(sw, run, true) == Decisions(un, run, false)
    decreases |run|
  {
    if run != [] {
      var tail := run[1..];
      assert forall i :: 0 <= i < |tail| ==> tail[i] == run[i + 1];
      StepSimulates(sw, un, t, run[0], d);
      SimulationOverRuns(Step(sw, run[0], true).0, Step(un, run[0], false).0, Max(t, run[0].now), tail, d);
    }
  }

  // ---------------------------------------------------------------- rate bound

  function Min(a: int, b: int): int {
    if a < b then a else b
  }

  function Up(d: int): int {
    if d > 0 then d else 0
  }

  /** Tokens a charge of `b` at time `t` could draw on; a clock reading older than the bucket earns nothing. */
  function Level(b: Bucket, rpm: int, burst: int, t: int): int {
    if b.last == 0 then Tokens(burst) else Min(Tokens(burst), b.tokens + Up(t - b.last) * rpm)
  }

  ghost predicate BucketInv(b: Bucket, burst: int) {
    b.last == 0 || (0 <= b.tokens <= Tokens(burst) && 0 < b.last)
  }

  /** Every call for `key` carries the same plan. */
  ghost predicate KeepsPlan(run: seq<Call>, key: string, rpm: int, burst: int) {
    forall i :: 0 <= i < |run| && run[i].key == key ==> run[i].rpm == rpm && EffectiveBurst(run[i].burst) == burst
  }

  lemma SweepKeepsLevel(s: State, key: string, rpm: int, burst: int, now: int)
    requires BucketInv(Lookup(s, key), burst) && 0 < rpm && burst <= 10 * rpm
    ensures BucketInv(Lookup(SweepSpec(s, now), key), burst)
    ensures Level(Lookup(SweepSpec(s, now), key), rpm, burst, now) == Level(Lookup(s, key), rpm, burst, now)
  {
    if key in s.buckets && key !in SweepSpec(s, now).buckets {
      MulLe(IDLE_EVICTION, Up(now - s.buckets[key].last), rpm);
    }
  }

  /** What a charge lets through is paid for out of the level. */
  lemma ChargeSpends(b: Bucket, rpm: int, burst: int, now: int)
    requires BucketInv(b, burst) && 0 < now && 0 < rpm && 0 < burst
    ensures BucketInv(Charge(b, rpm, burst, now).0, burst)
    ensures (if Charge(b, rpm, burst, now).1 then Tokens(1) else 0) + Level(Charge(b, rpm, burst, now).0, rpm, burst, now)
            <= Level(b, rpm, burst, now)
  {
    ChargeBounds(b, rpm, burst, now);
    var (b', ok) := Charge(b, rpm, burst, now);
    assert Up(now - b'.last) * rpm == 0;
    if b.last != 0 {
      var up := Up(now - b.last);
      MulLe(Sub(now, b.last), up, rpm);
      MulLe(0, up, rpm);
      assert b'.tokens + (if ok then Tokens(1) else 0) <= b.tokens + up * rpm;
    }
  }

  lemma StepSpends(s: State, c: Call, key: string, rpm: int, burst: int, sweeping: bool)
    requires BucketInv(Lookup(s, key), burst) && 0 < c.now
    requires 0 < rpm && 0 < burst && (sweeping ==> burst <= 10 * rpm)
    requires c.key == key ==> c.rpm == rpm && EffectiveBurst(c.burst) == burst
    ensures BucketInv(Lookup(Step(s, c, sweeping).0, key), burst)
    ensures (if Step(s, c, sweeping).1 && c.key == key then Tokens(1) else 0) +
            Level(Lookup(Step(s, c, sweeping).0, key), rpm, burst, c.now) <= Level(Lookup(s, key), rpm, burst, c.now)
  {
    if c.rpm > 0 {
      var swept := if sweeping then SweepSpec(s, c.now) else s;
      if sweeping {
        SweepKeepsLevel(s, key, rpm, burst, c.now);
      }
      if c.key == key {
        ChargeSpends(Lookup(swept, key), rpm, burst, c.now);
      }
    }
  }

  /** The clock may go back from `t` to `t'`, which earns nothing and costs nothing. */
  lemma LevelGrowsWithTime(b: Bucket, rpm: int, burst: int, t: int, t': int)
    requires 0 < rpm
    ensures Level(b, rpm, burst, t') <= Level(b, rpm, burst, t) + rpm * Up(t' - t)
  {
    var now, later, up := Up(t - b.last), Up(t' - b.last), Up(t' - t);
    MulLe(later, now + up, rpm);
    assert (now + up) * rpm == now * rpm + rpm * up;
    MulLe(0, up, rpm);
  }

  lemma LevelBounds(b: Bucket, rpm: int, burst: int, t: int)
    requires BucketInv(b, burst) && 0 < rpm && 0 < burst
    ensures 0 <= Level(b, rpm, burst, t) <= Tokens(burst)
  {
    if b.last != 0 {
      MulLe(0, Up(t - b.last), rpm);
    }
  }

  lemma StepAndWait(s: State, c: Call, key: string, rpm: int, burst: int, t': int, sweeping: bool)
    requires BucketInv(Lookup(s, key), burst) && 0 < c.now
    requires 0 < rpm && 0 < burst && (sweeping ==> burst <= 10 * rpm)
    requires c.key == key ==> c.rpm == rpm && EffectiveBurst(c.burst) == burst
    ensures BucketInv(Lookup(Step(s, c, sweeping).0, key), burst)
    ensures (if Step(s, c, sweeping).1 && c.key == key then Tokens(1) else 0) +
            Level(Lookup(Step(s, c, sweeping).0, key), rpm, burst, t') <=
            Level(Lookup(s, key), rpm, burst, c.now) + rpm * Up(t' - c.now)
  {
    StepSpends(s, c, key, rpm, burst, sweeping);
    LevelGrowsWithTime(Lookup(Step(s, c, sweeping).0, key), rpm, burst, c.now, t');
  }

  lemma StepWithinLevel(s: State, c: Call, key: string, rpm: int, burst: int, sweeping: bool)
    requires BucketInv(Lookup(s, key), burst) && 0 < c.now
    requires 0 < rpm && 0 < burst && (sweeping ==> burst <= 10 * rpm)
    requires c.key == key ==> c.rpm == rpm && EffectiveBurst(c.burst) == burst
    ensures (if Step(s, c, sweeping).1 && c.key == key then Tokens(1) else 0) <= Level(Lookup(s, key), rpm, burst, c.now)
  {
    StepSpends(s, c, key, rpm, burst, sweeping);
    LevelBounds(Lookup(Step(s, c, sweeping).0, key), rpm, burst, c.now);
  }

  /** Time from the first call of a stretch to its last. */
  function Span(run: seq<Call>): int
    requires run != []
  {
    run[|run| - 1].now - run[0].now
  }

  /** How far the clock moves forward between successive calls, in all. */
  function Rise(run: seq<Call>): int
    decreases |run|
  {
    if |run| <= 1 then 0 else Up(run[1].now - run[0].now) + Rise(run[1..])
  }

  /** What the rate pays for between the first and the last call. */
  function Paid(run: seq<Call>, rpm: int): int
    decreases |run|
  {
    if |run| <= 1 then 0 else rpm * Up(run[1].now - run[0].now) + Paid(run[1..], rpm)
  }

  lemma {:induction false} PaidIsRateTimesRise(run: seq<Call>, rpm: int)
    ensures Paid(run, rpm) == rpm * Rise(run)
    decreases |run|
  {
    if |run| > 1 {
      PaidIsRateTimesRise(run[1..], rpm);
      var up, rest := Up(run[1].now - run[0].now), Rise(run[1..]);
      assert rpm * up + rpm * rest == rpm * (up + rest);
    }
  }

  ghost predicate Forward(run: seq<Call>) {
    forall i, j :: 0 <= i < j < |run| ==> run[i].now <= run[j].now
  }

  lemma ForwardTail(run: seq<Call>)
    requires |run| > 1
    ensures Forward(run) <==> run[0].now <= run[1].now && Forward(run[1..])
  {
    var tail := run[1..];
    assert forall i :: 0 <= i < |tail| ==> tail[i] == run[i + 1];
    if run[0].now <= run[1].now && Forward(tail) {
      forall i, j | 0 <= i < j < |run| ensures run[i].now <= run[j].now {
        assert j == 1 || tail[0].now <= tail[j - 1].now;
        assert i == 0 || tail[i - 1].now <= tail[j - 1].now;
      }
    }
  }

  /** The clock rises by at least the time spanned, and by no more exactly if it never falls back. */
  lemma {:induction false} RiseIsSpanIff(run: seq<Call>)
    requires run != []
    ensures Rise(run) >= Span(run)
    ensures Rise(run) == Span(run) <==> Forward(run)
    decreases |run|
  {
    if |run| > 1 {
      ForwardTail(run);
      RiseIsSpanIff(run[1..]);
    }
  }

  lemma {:induction false} LevelPaysForStretch(s: State, run: seq<Call>, key: string, rpm: int, burst: int,
                                               level: int, sweeping: bool)
    requires run != [] && BucketInv(Lookup(s, key), burst) && Readings(run)
    requires 0 < rpm && 0 < burst && (sweeping ==> burst <= 10 * rpm)
    requires KeepsPlan(run, key, rpm, burst)
    requires level >= Level(Lookup(s, key), rpm, burst, run[0].now)
    ensures Tokens(Allowed(s, run, key, sweeping)) <= level + Paid(run, rpm)
    decreases |run|
  {
    var c, tail := run[0], run[1..];
    var (next, ok) := Step(s, c, sweeping);
    var spent := if ok && c.key == key then 1 else 0;
    if tail == [] {
      StepWithinLevel(s, c, key, rpm, burst, sweeping);
    } else {
      StepAndWait(s, c, key, rpm, burst, tail[0].now, sweeping);
      var earned := rpm * Up(tail[0].now - c.now);
      LevelPaysForStretch(next, tail, key, rpm, burst, level + earned - Tokens(spent), sweeping);
    }
  }

  lemma {:induction false} BucketInvAfter(s: State, run: seq<Call>, key: string, rpm: int, burst: int, sweeping: bool)
    requires BucketInv(Lookup(s, key), burst) && Readings(run)
    requires 0 < rpm && 0 < burst && (sweeping ==> burst <= 10 * rpm)
    requires KeepsPlan(run, key, rpm, burst)
    ensures BucketInv(Lookup(After(s, run, sweeping), key), burst)
    decreases |run|
  {
    if run != [] {
      StepSpends(s, run[0], key, rpm, burst, sweeping);
      BucketInvAfter(Step(s, run[0], sweeping).0, run[1..], key, rpm, burst, sweeping);
    }
  }

  /**
   * In any stretch `mid` of any run, whatever order the clock readings reach the lock in, at most a burst
   * plus what the rate pays for while the clock moves forward is let through.
   */
  lemma RiseBound(pre: seq<Call>, mid: seq<Call>, key: string, rpm: int, burst: int, sweeping: bool)
    requires mid != [] && Readings(pre + mid) && KeepsPlan(pre + mid, key, rpm, burst)
    requires 0 < rpm && 0 < burst && (sweeping ==> burst <= 10 * rpm)
    ensures Tokens(Allowed(After(INITIAL, pre, sweeping), mid, key, sweeping)) <=
            Tokens(burst) + rpm * Rise(mid)
  {
    var run := pre + mid;
    assert forall i :: 0 <= i < |pre| ==> pre[i] == run[i];
    assert forall i :: 0 <= i < |mid| ==> mid[i] == run[|pre| + i];
    BucketInvAfter(INITIAL, pre, key, rpm, burst, sweeping);
    var s := After(INITIAL, pre, sweeping);
    LevelBounds(Lookup(s, key), rpm, burst, mid[0].now);
    LevelPaysForStretch(s, mid, key, rpm, burst, Tokens(burst), sweeping);
    PaidIsRateTimesRise(mid, rpm);
  }

  /** On a forward clock that is a burst plus the rate times the time from the first call to the last. */
  lemma RateBound(pre: seq<Call>, mid: seq<Call>, key: string, rpm: int, burst: int, sweeping: bool)
    requires mid != [] && ClockedFrom(1, pre + mid) && KeepsPlan(pre + mid, key, rpm, burst)
    requires 0 < rpm && 0 < burst && (sweeping ==> burst <= 10 * rpm)
    ensures Tokens(Allowed(After(INITIAL, pre, sweeping), mid, key, sweeping)) <=
            Tokens(burst) + rpm * Span(mid)
  {
    assert forall i :: 0 <= i < |mid| ==> mid[i] == (pre + mid)[|pre| + i];
    RiseIsSpanIff(mid);
    RiseBound(pre, mid, key, rpm, burst, sweeping);
  }

  // ---------------------------------------------------------------- a client within its rate

  /** The rate pays for a call between `from` and `to`. */
  predicate Pays(rpm: int, from: int, to: int) {
    rpm * (to - from) >= Tokens(1)
  }

  /** Successive calls for `key` are far enough apart for the rate to pay for each. */
  ghost predicate Paced(run: seq<Call>, key: string, rpm: int) {
    forall i, j :: 0 <= i < j < |run| && run[i].key == key && run[j].key == key ==> Pays(rpm, run[i].now, run[j].now)
  }

  /** The bucket can pay for a call at every time in `run` at which one comes. */
  ghost predicate CanPay(b: Bucket, run: seq<Call>, key: string, rpm: int) {
    b.last == 0 || (b.tokens >= 0 && 0 < b.last &&
                    forall j :: 0 <= j < |run| && run[j].key == key ==> Pays(rpm, b.last, run[j].now))
  }

  lemma PaidChargeIsAllowed(b: Bucket, rpm: int, burst: int, now: int)
    requires 0 < rpm && 0 < burst && 0 < now
    requires b.last == 0 || (b.tokens >= 0 && 0 < b.last && Pays(rpm, b.last, now))
    ensures Charge(b, rpm, burst, now).1
  {
    if b.last == 0 {
      FreshBucketIsFull(rpm, burst, now);
    } else {
      var elapsed := Sub(now, b.last);
      if now <= b.last {
        MulLe(now - b.last, 0, rpm);
      } else if elapsed == MAX_DURATION {
        MulLe(1, rpm, elapsed);
      }
      assert elapsed * rpm >= Tokens(1);
    }
  }

  /** A call leaves the bucket of `key` able to pay for the calls to come. */
  lemma StepKeepsPay(s: State, run: seq<Call>, key: string, rpm: int, burst: int, sweeping: bool)
    requires run != [] && Readings(run) && 0 < rpm && 0 < burst
    requires KeepsPlan(run, key, rpm, burst) && Paced(run, key, rpm) && CanPay(Lookup(s, key), run, key, rpm)
    ensures CanPay(Lookup(Step(s, run[0], sweeping).0, key), run[1..], key, rpm)
    ensures run[0].key == key ==> Step(s, run[0], sweeping).1
  {
    var c, tail := run[0], run[1..];
    assert forall j :: 0 <= j < |tail| ==> tail[j] == run[j + 1];
    var b := Lookup(Swept(s, c.now, sweeping), key);
    assert b == Lookup(s, key) || b.last == 0;
    if c.key == key {
      PaidChargeIsAllowed(b, rpm, burst, c.now);
      ChargeBounds(b, rpm, burst, c.now);
    }
  }

  lemma {:induction false} PacedFrom(s: State, run: seq<Call>, key: string, rpm: int, burst: int, sweeping: bool,
                                     i: nat)
    requires Readings(run) && 0 < rpm && 0 < burst && KeepsPlan(run, key, rpm, burst) && Paced(run, key, rpm)
    requires CanPay(Lookup(s, key), run, key, rpm)
    requires i < |run| && run[i].key == key
    ensures Decisions(s, run, sweeping)[i]
    decreases |run|
  {
    StepKeepsPay(s, run, key, rpm, burst, sweeping);
    if i > 0 {
      var tail := run[1..];
      assert forall j :: 0 <= j < |tail| ==> tail[j] == run[j + 1];
      PacedFrom(Step(s, run[0], sweeping).0, tail, key, rpm, burst, sweeping, i - 1);
    }
  }

  /** A client that keeps to its rate is never refused, with or without eviction, whatever the other clients do. */
  lemma PacedClientIsNeverRefused(run: seq<Call>, key: string, rpm: int, burst: int, sweeping: bool, i: nat)
    requires Readings(run) && 0 < rpm && 0 < burst && KeepsPlan(run, key, rpm, burst) && Paced(run, key, rpm)
    requires i < |run| && run[i].key == key
    ensures Decisions(INITIAL, run, sweeping)[i]
  {
    PacedFrom(INITIAL, run, key, rpm, burst, sweeping, i);
  }

  // ---------------------------------------------------------------- which calls are let through

  /** What was let through since `start`, and one call more at `now`, is within a burst plus the rate. */
  ghost predicate Fits(n: nat, rpm: int, burst: int, start: int, now: int) {
    (n + 1) * 60_000_000_000 <= burst * 60_000_000_000 + rpm * (now - start)
  }

  /** What is in the bucket: a burst and the rate since `start`, less the `n` calls let through since. */
  ghost predicate Filled(b: Bucket, rpm: int, burst: int, start: int, n: nat) {
    0 < b.last && 0 <= b.tokens <= Tokens(burst) && b.tokens == Tokens(burst) + rpm * (b.last - start) - Tokens(n)
  }

  /** A charge either finds a full bucket or takes from what is there and what the rate added since. */
  lemma ChargeCases(b: Bucket, rpm: int, burst: int, now: int)
    requires 0 < rpm && 0 < burst <= 10 * rpm && 0 < b.last <= now && 0 <= b.tokens <= Tokens(burst)
    ensures var all := b.tokens + rpm * (now - b.last);
            || Charge(b, rpm, burst, now) == (Bucket(Tokens(burst - 1), now), true)
            || Charge(b, rpm, burst, now) ==
               (if all < Tokens(1) then (Bucket(all, now), false) else (Bucket(all - Tokens(1), now), true))
  {
    var elapsed := Sub(now, b.last);
    assert elapsed * rpm == rpm * elapsed;
    if now - b.last > MAX_DURATION {
      MulLe(IDLE_EVICTION, elapsed, rpm);
      assert b.tokens + elapsed * rpm >= Tokens(burst);
    }
  }

  /** A bucket found full starts a new stretch; any other goes on with the one it was filled in. */
  lemma ChargeFills(b: Bucket, rpm: int, burst: int, now: int, start: int, n: nat) returns (start': int, n': nat)
    requires 0 < rpm && 0 < burst <= 10 * rpm && 0 < now
    requires b.last == 0 || (Filled(b, rpm, burst, start, n) && b.last <= now)
    ensures var (b', ok) := Charge(b, rpm, burst, now);
            && Filled(b', rpm, burst, start', n') && b'.last == now
            && if ok && start' == now && n' == 1 then true
               else b.last != 0 && start' == start && n' == n + if ok then 1 else 0
  {
    FreshBucketIsFull(rpm, burst, now);
    ChargeBounds(b, rpm, burst, now);
    start', n' := now, 1;
    assert rpm * (now - now) == 0;
    if b.last != 0 {
      ChargeCases(b, rpm, burst, now);
      assert rpm * (b.last - start) + rpm * (now - b.last) == rpm * (now - start);
      var (b', ok) := Charge(b, rpm, burst, now);
      if b' != Bucket(Tokens(burst - 1), now) || !ok {
        start', n' := start, n + if ok then 1 else 0;
      }
    }
  }

  lemma RefusedDoesNotFit(b: Bucket, rpm: int, burst: int, now: int, start: int, n: nat)
    requires 0 < rpm && 0 < burst <= 10 * rpm && 0 < now
    requires b.last == 0 || (Filled(b, rpm, burst, start, n) && b.last <= now)
    requires !Charge(b, rpm, burst, now).1
    ensures b.last != 0 && !Fits(n, rpm, burst, start, now)
  {
    FreshBucketIsFull(rpm, burst, now);
    ChargeCases(b, rpm, burst, now);
    assert rpm * (b.last - start) + rpm * (now - b.last) == rpm * (now - start);
  }

  /** The bucket of `key`, if there is one, was last used by `t` and filled since `start`. */
  ghost predicate HeldSince(s: State, key: string, rpm: int, burst: int, t: int, start: int, n: nat) {
    key in s.buckets ==> s.buckets[key].last <= t && Filled(s.buckets[key], rpm, burst, start, n)
  }

  /** One call; `opens` if it starts a new stretch for `key`. */
  lemma StepFills(s: State, c: Call, key: string, rpm: int, burst: int, t: int, start: int, n: nat)
    returns (opens: bool, start': int, n': nat)
    requires HeldSince(s, key, rpm, burst, t, start, n) && t <= c.now && 0 < c.now && 0 < rpm && 0 < burst <= 10 * rpm
    requires c.key == key ==> c.rpm == rpm && EffectiveBurst(c.burst) == burst
    ensures HeldSince(Step(s, c, true).0, key, rpm, burst, c.now, start', n')
    ensures var mine := if c.key == key && Step(s, c, true).1 then 1 else 0;
            if opens then c.key == key && start' == c.now && n' == mine
            else start' == start && n' == n + mine && (key in Step(s, c, true).0.buckets ==> key in s.buckets)
  {
    opens, start', n' := false, start, n;
    if c.key == key {
      var b := Lookup(SweepSpec(s, c.now), key);
      start', n' := ChargeFills(b, rpm, burst, c.now, start, n);
      opens := b.last == 0 || start' != start || n' != n + if Step(s, c, true).1 then 1 else 0;
    }
  }

  lemma RefusedAtOnce(s: State, c: Call, burst: int, t: int, start: int, n: nat)
    requires HeldSince(s, c.key, c.rpm, burst, t, start, n) && t <= c.now && 0 < c.now
    requires 0 < c.rpm && 0 < burst <= 10 * c.rpm && EffectiveBurst(c.burst) == burst && !Step(s, c, true).1
    ensures c.key in s.buckets && !Fits(n, c.rpm, burst, start, c.now)
  {
    RefusedDoesNotFit(Lookup(SweepSpec(s, c.now), c.key), c.rpm, burst, c.now, start, n);
  }

  lemma AllowedAfterFirst(s: State, c: Call, tail: seq<Call>, key: string) returns (next: State)
    ensures next == Step(s, c, true).0 && After(s, [c] + tail, true) == After(next, tail, true)
    ensures Allowed(s, [c] + tail, key, true) ==
            (if c.key == key && Step(s, c, true).1 then 1 else 0) + Allowed(next, tail, key, true)
  {
    next := Step(s, c, true).0;
    assert ([c] + tail)[1..] == tail;
  }

  /** The stretch `b`, after `a`, starts with a call of the same client and has no room for `c`. */
  ghost predicate NoRoom(s: State, a: seq<Call>, b: seq<Call>, c: Call, burst: int) {
    b != [] && b[0].key == c.key && !Fits(Allowed(After(s, a, true), b, c.key, true), c.rpm, burst, b[0].now, c.now)
  }

  lemma NoRoomLater(s: State, d: Call, a: seq<Call>, b: seq<Call>, c: Call, burst: int)
    requires NoRoom(Step(s, d, true).0, a, b, c, burst)
    ensures NoRoom(s, [d] + a, b, c, burst)
  {
    var next := AllowedAfterFirst(s, d, a, c.key);
  }

  lemma NoRoomHere(s: State, d: Call, tail: seq<Call>, c: Call, burst: int, n: nat)
    requires d.key == c.key && n == if Step(s, d, true).1 then 1 else 0
    requires !Fits(n + Allowed(Step(s, d, true).0, tail, c.key, true), c.rpm, burst, d.now, c.now)
    ensures NoRoom(s, [], [d] + tail, c, burst)
  {
    var next := AllowedAfterFirst(s, d, tail, c.key);
    assert After(s, [], true) == s;
  }

  /** A run in which every call for the client of `c` carries its plan and comes before it. */
  ghost predicate LeadsTo(run: seq<Call>, t: int, c: Call, burst: int) {
    && ClockedFrom(t, run) && KeepsPlan(run, c.key, c.rpm, burst) && 0 < t <= c.now
    && (forall i :: 0 <= i < |run| ==> run[i].now <= c.now)
  }

  lemma LeadsOn(d: Call, tail: seq<Call>, t: int, c: Call, burst: int)
    requires LeadsTo([d] + tail, t, c, burst)
    ensures LeadsTo(tail, d.now, c, burst) && t <= d.now
    ensures d.key == c.key ==> d.rpm == c.rpm && EffectiveBurst(d.burst) == burst
  {
    var run := [d] + tail;
    ClockedTail(t, run);
    assert run[0] == d && run[1..] == tail && forall i :: 0 <= i < |tail| ==> tail[i] == run[i + 1];
  }

  /** No room for `c`: in a stretch inside `a + b`, or in the one that began at `start` with `n` calls let through. */
  ghost predicate Overrun(s: State, run: seq<Call>, c: Call, burst: int, start: int, n: nat, inside: bool, a: seq<Call>,
                          b: seq<Call>) {
    if inside then run == a + b && NoRoom(s, a, b, c, burst)
    else c.key in s.buckets && !Fits(n + Allowed(s, run, c.key, true), c.rpm, burst, start, c.now)
  }

  /** The call after `run` is refused: either the stretch so far or one that starts in `run` has no room for it. */
  lemma {:induction false} RefusedAfter(s: State, run: seq<Call>, c: Call, burst: int, t: int, start: int, n: nat)
    returns (inside: bool, a: seq<Call>, b: seq<Call>)
    requires HeldSince(s, c.key, c.rpm, burst, t, start, n) && LeadsTo(run, t, c, burst)
    requires EffectiveBurst(c.burst) == burst && 0 < c.rpm && 0 < burst <= 10 * c.rpm
    requires !Step(After(s, run, true), c, true).1
    ensures Overrun(s, run, c, burst, start, n, inside, a, b)
    decreases |run|
  {
    if run == [] {
      inside, a, b := false, [], run;
      RefusedAtOnce(s, c, burst, t, start, n);
    } else {
      var d, tail := run[0], run[1..];
      assert run == [d] + tail;
      LeadsOn(d, tail, t, c, burst);
      var opens, start', n' := StepFills(s, d, c.key, c.rpm, burst, t, start, n);
      inside, a, b := RefusedAfter(Step(s, d, true).0, tail, c, burst, d.now, start', n');
      inside, a, b := OverrunEarlier(s, d, tail, c, burst, start, n, opens, start', n', inside, a, b);
    }
  }

  lemma OverrunEarlier(s: State, d: Call, tail: seq<Call>, c: Call, burst: int, start: int, n: nat, opens: bool,
                       start': int, n': nat, inside: bool, a: seq<Call>, b: seq<Call>)
    returns (inside': bool, a': seq<Call>, b': seq<Call>)
    requires Overrun(Step(s, d, true).0, tail, c, burst, start', n', inside, a, b)
    requires var mine := if d.key == c.key && Step(s, d, true).1 then 1 else 0;
             if opens then d.key == c.key && start' == d.now && n' == mine
             else start' == start && n' == n + mine && (c.key in Step(s, d, true).0.buckets ==> c.key in s.buckets)
    ensures Overrun(s, [d] + tail, c, burst, start, n, inside', a', b')
  {
    inside', a', b' := inside || opens, [], [d] + tail;
    if inside {
      a', b' := [d] + a, b;
      NoRoomLater(s, d, a, b, c, burst);
    } else if opens {
      NoRoomHere(s, d, tail, c, burst, n');
    } else {
      var next := AllowedAfterFirst(s, d, tail, c.key);
    }
  }

  /** A call let through keeps every stretch that ends with it within the bound. */
  lemma LetThroughFits(a: seq<Call>, b: seq<Call>, c: Call, burst: int)
    requires ClockedFrom(1, a + b + [c]) && KeepsPlan(a + b + [c], c.key, c.rpm, burst)
    requires 0 < c.rpm && 0 < burst <= 10 * c.rpm && Step(After(INITIAL, a + b, true), c, true).1 && b != []
    ensures Fits(Allowed(After(INITIAL, a, true), b, c.key, true), c.rpm, burst, b[0].now, c.now)
  {
    assert a + b + [c] == a + (b + [c]);
    RateBound(a, b + [c], c.key, c.rpm, burst, true);
    AllowedWithLast(a, b, c);
  }

  lemma AllowedWithLast(a: seq<Call>, b: seq<Call>, c: Call)
    requires Step(After(INITIAL, a + b, true), c, true).1
    ensures Allowed(After(INITIAL, a, true), b + [c], c.key, true) == Allowed(After(INITIAL, a, true), b, c.key, true) + 1
  {
    AllowedConcat(After(INITIAL, a, true), b, [c], c.key, true);
    AfterConcat(INITIAL, a, b, true);
    AllowedOne(After(INITIAL, a + b, true), c);
  }

  lemma AllowedOne(s: State, c: Call)
    ensures Allowed(s, [c], c.key, true) == if Step(s, c, true).1 then 1 else 0
  {
    var next := Step(s, c, true).0;
    assert Allowed(next, [c][1..], c.key, true) == 0;
  }

  /** `c` has room in every stretch that starts with a call of the same client. */
  ghost predicate CallFits(pre: seq<Call>, c: Call, burst: int) {
    forall x: seq<Call>, y: seq<Call> :: x + y == pre && y != [] && y[0].key == c.key ==>
      Fits(Allowed(After(INITIAL, x, true), y, c.key, true), c.rpm, burst, y[0].now, c.now)
  }

  /**
   * Exactly which calls the limiter lets through: those that keep every stretch of the run that starts with a call of
   * the same client and ends here within a burst plus the rate.
   */
  lemma LetThroughIff(pre: seq<Call>, c: Call, burst: int)
    requires ClockedFrom(1, pre + [c]) && KeepsPlan(pre + [c], c.key, c.rpm, burst)
    requires 0 < c.rpm && 0 < burst <= 10 * c.rpm
    ensures Step(After(INITIAL, pre, true), c, true).1 <==> CallFits(pre, c, burst)
  {
    if Step(After(INITIAL, pre, true), c, true).1 {
      forall a: seq<Call>, b: seq<Call> | a + b == pre && b != [] && b[0].key == c.key
        ensures Fits(Allowed(After(INITIAL, a, true), b, c.key, true), c.rpm, burst, b[0].now, c.now)
      {
        LetThroughFits(a, b, c, burst);
      }
    } else {
      var run := pre + [c];
      assert run[|pre|] == c && forall j :: 0 <= j < |pre| ==> pre[j] == run[j];
      var inside, a, b := RefusedAfter(INITIAL, pre, c, burst, 1, 0, 0);
    }
  }

  // ---------------------------------------------------------------- retention

  ghost predicate SweptUpTo(s: State, t: int) {
    && 0 <= s.lastSweep <= t
    && forall key :: key in s.buckets ==> s.lastSweep - s.buckets[key].last < IDLE_EVICTION && s.buckets[key].last <= t
  }

  lemma {:induction false} SweptUpToAfter(s: State, run: seq<Call>, t: int)
    requires SweptUpTo(s, t) && ClockedFrom(t, run) && 0 < t
    ensures SweptUpTo(After(s, run, true), if run == [] then t else run[|run| - 1].now)
    decreases |run|
  {
    if run != [] {
      ClockedTail(t, run);
      var next := Step(s, run[0], true).0;
      assert SweptUpTo(next, run[0].now);
      SweptUpToAfter(next, run[1..], run[0].now);
    }
  }

  /** After a limited call every bucket still held was used less than eleven minutes earlier. */
  lemma RetainedBucketsAreRecent(pre: seq<Call>, c: Call, key: string)
    requires ClockedFrom(1, pre + [c]) && c.rpm > 0
    requires key in After(INITIAL, pre + [c], true).buckets
    ensures c.now - After(INITIAL, pre + [c], true).buckets[key].last < 660_000_000_000
  {
    var run := pre + [c];
    assert run[|pre|] == c && forall i :: 0 <= i < |pre| ==> pre[i] == run[i];
    SweptUpToAfter(INITIAL, pre, 1);
    AfterConcat(INITIAL, pre, [c], true);
    var s := After(INITIAL, pre, true);
    assert After(s, [c], true) == After(Step(s, c, true).0, [], true);
  }

  lemma {:induction false} AfterConcat(s: State, a: seq<Call>, b: seq<Call>, sweeping: bool)
    ensures After(s, a + b, sweeping) == After(After(s, a, sweeping), b, sweeping)
    decreases |a|
  {
    if a == [] {
      assert a + b == b;
    } else {
      AfterConcat(Step(s, a[0], sweeping).0, a[1..], b, sweeping);
      assert (a + b)[1..] == a[1..] + b;
    }
  }

  lemma {:induction false} AllowedConcat(s: State, a: seq<Call>, b: seq<Call>, key: string, sweeping: bool)
    ensures Allowed(s, a + b, key, sweeping) == Allowed(s, a, key, sweeping) + Allowed(After(s, a, sweeping), b, key, sweeping)
    decreases |a|
  {
    if a == [] {
      assert a + b == b;
    } else {
      AllowedConcat(Step(s, a[0], sweeping).0, a[1..], b, key, sweeping);
      assert (a + b)[1..] == a[1..] + b;
    }
  }

  lemma {:induction false} SameDecisionsSameCount(s: State, s': State, run: seq<Call>, key: string)
    requires Decisions(s, run, true) == Decisions(s', run, false)
    ensures Allowed(s, run, key, true) == Allowed(s', run, key, false)
    decreases |run|
  {
    if run != [] {
      var ds, ds' := Decisions(s, run, true), Decisions(s', run, false);
      assert ds[0] == ds'[0] && ds[1..] == ds'[1..];
      SameDecisionsSameCount(Step(s, run[0], true).0, Step(s', run[0], false).0, run[1..], key);
    }
  }

  // ---------------------------------------------------------------- the exact condition

  function Repeat(c: Call, n: nat): seq<Call> {
    if n == 0 then [] else [c] + Repeat(c, n - 1)
  }

  lemma {:induction false} RepeatAt(c: Call, n: nat)
    ensures |Repeat(c, n)| == n && forall i :: 0 <= i < n ==> Repeat(c, n)[i] == c
  {
    if n > 0 {
      RepeatAt(c, n - 1);
    }
  }

  /** Repeating a call at one instant spends the bucket token by token. */
  lemma {:induction false} RepeatSpends(s: State, c: Call, n: nat, sweeping: bool)
    requires c.rpm > 0 && 0 < c.now && c.key in s.buckets && (sweeping ==> Sub(c.now, s.lastSweep) < SWEEP_INTERVAL)
    requires s.buckets[c.key].last == c.now && s.buckets[c.key].tokens >= Tokens(n)
    ensures Allowed(s, Repeat(c, n), c.key, sweeping) == n
    ensures After(s, Repeat(c, n), sweeping) ==
            State(s.buckets[c.key := Bucket(s.buckets[c.key].tokens - Tokens(n), c.now)], s.lastSweep)
    decreases n
  {
    if n > 0 {
      var run := Repeat(c, n);
      assert run[0] == c && run[1..] == Repeat(c, n - 1);
      RepeatSpends(Step(s, c, sweeping).0, c, n - 1, sweeping);
    }
  }

  lemma FreshBucketIsFull(rpm: int, burst: int, now: int)
    requires 0 < burst
    ensures Charge(Bucket(0, 0), rpm, burst, now) == (Bucket(Tokens(burst - 1), now), true)
  {
  }

  function Swept(s: State, now: int, sweeping: bool): State {
    if sweeping then SweepSpec(s, now) else s
  }

  lemma FreshStep(s: State, c: Call, sweeping: bool)
    requires c.rpm > 0 && c.key !in Swept(s, c.now, sweeping).buckets
    ensures var swept := Swept(s, c.now, sweeping);
            Step(s, c, sweeping) ==
            (State(swept.buckets[c.key := Bucket(Tokens(EffectiveBurst(c.burst) - 1), c.now)], swept.lastSweep), true)
    ensures sweeping ==> Sub(c.now, Swept(s, c.now, sweeping).lastSweep) < SWEEP_INTERVAL
  {
    FreshBucketIsFull(c.rpm, EffectiveBurst(c.burst), c.now);
  }

  /** A client the limiter does not know, or has just evicted, has a full burst. */
  lemma FullBurst(s: State, c: Call, n: nat, sweeping: bool)
    requires c.rpm > 0 && 0 < c.now && c.key !in Swept(s, c.now, sweeping).buckets
    requires 0 < n <= EffectiveBurst(c.burst)
    ensures Allowed(s, Repeat(c, n), c.key, sweeping) == n
    ensures var swept := Swept(s, c.now, sweeping);
            After(s, Repeat(c, n), sweeping) ==
            State(swept.buckets[c.key := Bucket(Tokens(EffectiveBurst(c.burst) - n), c.now)], swept.lastSweep)
  {
    var run := Repeat(c, n);
    assert run[0] == c && run[1..] == Repeat(c, n - 1);
    FreshStep(s, c, sweeping);
    var swept, burst := Swept(s, c.now, sweeping), EffectiveBurst(c.burst);
    var next := State(swept.buckets[c.key := Bucket(Tokens(burst - 1), c.now)], swept.lastSweep);
    RepeatSpends(next, c, n - 1, sweeping);
    assert Tokens(burst - 1) - Tokens(n - 1) == Tokens(burst - n);
    assert next.buckets[c.key := Bucket(Tokens(burst - n), c.now)] == swept.buckets[c.key := Bucket(Tokens(burst - n), c.now)];
  }

  /** A drained bucket, then ten idle minutes, then one call more than the refill paid for. */
  function Overdraw(key: string, rpm: int, burst: int): seq<Call>
    requires rpm > 0
  {
    Repeat(Call(key, rpm, burst, SWEEP_INTERVAL), EffectiveBurst(burst)) +
    Repeat(Call(key, rpm, burst, SWEEP_INTERVAL + IDLE_EVICTION), 10 * rpm + 1)
  }

  lemma OverdrawShape(key: string, rpm: int, burst: int)
    requires rpm > 0
    ensures var run := Overdraw(key, rpm, burst);
            && |run| == EffectiveBurst(burst) + 10 * rpm + 1
            && Span(run) == IDLE_EVICTION
            && ClockedFrom(1, run)
            && forall i :: 0 <= i < |run| ==> run[i].key == key && run[i].rpm == rpm && run[i].burst == burst
  {
    RepeatAt(Call(key, rpm, burst, SWEEP_INTERVAL), EffectiveBurst(burst));
    RepeatAt(Call(key, rpm, burst, SWEEP_INTERVAL + IDLE_EVICTION), 10 * rpm + 1);
  }

  lemma OverdrawIsAllowed(key: string, rpm: int, burst: int)
    requires rpm > 0 && EffectiveBurst(burst) > 10 * rpm
    ensures Allowed(INITIAL, Overdraw(key, rpm, burst), key, true) == EffectiveBurst(burst) + 10 * rpm + 1
  {
    var c, c' := Call(key, rpm, burst, SWEEP_INTERVAL), Call(key, rpm, burst, SWEEP_INTERVAL + IDLE_EVICTION);
    FullBurst(INITIAL, c, EffectiveBurst(burst), true);
    var s := After(INITIAL, Repeat(c, EffectiveBurst(burst)), true);
    FullBurst(s, c', 10 * rpm + 1, true);
    AllowedConcat(INITIAL, Repeat(c, EffectiveBurst(burst)), Repeat(c', 10 * rpm + 1), key, true);
  }

  lemma IdleWindowPays(rpm: int, span: int)
    requires span == IDLE_EVICTION
    ensures rpm * span == Tokens(10 * rpm)
  {
  }

  lemma NeverEvictingPaysIdleWindow(run: seq<Call>, key: string, rpm: int, burst: int)
    requires run != [] && ClockedFrom(1, run) && KeepsPlan(run, key, rpm, burst) && Span(run) == IDLE_EVICTION
    requires 0 < rpm && 0 < burst
    ensures Allowed(INITIAL, run, key, false) <= burst + 10 * rpm
  {
    assert [] + run == run;
    assert After(INITIAL, [], false) == INITIAL;
    RateBound([], run, key, rpm, burst, false);
    IdleWindowPays(rpm, Span(run));
  }

  /** Ten minutes at `rpm` pay for exactly `10 * rpm` calls: the never-evicting limiter denies one. */
  lemma OverdrawSeparates(key: string, rpm: int, burst: int) returns (run: seq<Call>)
    requires rpm > 0 && EffectiveBurst(burst) > 10 * rpm
    ensures run != [] && ClockedFrom(1, run) && Span(run) == IDLE_EVICTION
    ensures forall i :: 0 <= i < |run| ==> run[i].key == key && run[i].rpm == rpm && run[i].burst == burst
    ensures Allowed(INITIAL, run, key, true) > EffectiveBurst(burst) + 10 * rpm
    ensures Decisions(INITIAL, run, true) != Decisions(INITIAL, run, false)
  {
    run := Overdraw(key, rpm, burst);
    OverdrawShape(key, rpm, burst);
    OverdrawIsAllowed(key, rpm, burst);
    NeverEvictingPaysIdleWindow(run, key, rpm, EffectiveBurst(burst));
    if Decisions(INITIAL, run, true) == Decisions(INITIAL, run, false) {
      SameDecisionsSameCount(INITIAL, INITIAL, run, key);
      assert false;
    }
  }

  // ---------------------------------------------------------------- late calls

  /**
   * `now` is read before the lock is taken, so calls can reach the bucket out of order.
   * Three calls of a plan without burst, the second `lag` late: the third comes at the instant of the
   * first, and is let through exactly if the rate pays for a call in the time the clock went back.
   */
  lemma LateCallOvergrantsIff(key: string, rpm: int, t: int, lag: int, sweeping: bool)
    requires 0 < rpm && 0 <= lag < SWEEP_INTERVAL && 2 * SWEEP_INTERVAL <= t <= MAX_DURATION
    ensures var c, late := Call(key, rpm, 1, t), Call(key, rpm, 1, t - lag);
            Decisions(INITIAL, [c, late, c], sweeping) == [true, false, rpm * lag >= Tokens(1)]
  {
    var c, late := Call(key, rpm, 1, t), Call(key, rpm, 1, t - lag);
    var s1 := Step(INITIAL, c, sweeping).0;
    FreshBucketIsFull(rpm, 1, t);
    assert s1.buckets == map[key := Bucket(0, t)];
    var (s2, late') := Step(s1, late, sweeping);
    assert !late' && s2.buckets == map[key := Bucket(0, t - lag)];
    LateRefill(rpm, t, lag);
    assert Step(s2, c, sweeping).1 == (rpm * lag >= Tokens(1));
    ThreeDecisions(c, late, sweeping);
  }

  lemma LateRefill(rpm: int, t: int, lag: int)
    requires 0 < rpm && 0 <= lag < SWEEP_INTERVAL && 2 * SWEEP_INTERVAL <= t
    ensures Charge(Bucket(0, t - lag), rpm, 1, t).1 <==> rpm * lag >= Tokens(1)
  {
    assert lag * rpm == rpm * lag;
  }

  lemma ThreeDecisions(c: Call, c': Call, sweeping: bool)
    ensures var s1 := Step(INITIAL, c, sweeping);
            var s2 := Step(s1.0, c', sweeping);
            Decisions(INITIAL, [c, c', c], sweeping) == [s1.1, s2.1, Step(s2.0, c, sweeping).1]
  {
    var run := [c, c', c];
    var s1 := Step(INITIAL, c, sweeping).0;
    var s2 := Step(s1, c', sweeping).0;
    assert run[1..] == [c', c] && run[1..][1..] == [c] && run[1..][1..][1..] == [];
    assert Decisions(s2, [c], sweeping) == [Step(s2, c, sweeping).1] + Decisions(Step(s2, c, sweeping).0, [], sweeping);
  }

  /**
   * A drained bucket, evicted by a call of another client, and then a burst of calls whose reading is
   * `d` older than that call's.
   */
  function LateBurst(key: string, other: string, rpm: int, burst: int, d: int): seq<Call> {
    var s := SWEEP_INTERVAL + d;
    Repeat(Call(key, rpm, burst, s), EffectiveBurst(burst)) + [Call(other, rpm, burst, s + IDLE_EVICTION)] +
    Repeat(Call(key, rpm, burst, s + IDLE_EVICTION - d), EffectiveBurst(burst))
  }

  lemma LateBurstShape(key: string, other: string, rpm: int, burst: int, d: int)
    requires 0 <= d
    ensures var run := LateBurst(key, other, rpm, burst, d);
            && Readings(run) && LateBy(run, d)
            && forall i :: 0 <= i < |run| ==> run[i].key in {key, other} && run[i].rpm == rpm && run[i].burst == burst
  {
    var s := SWEEP_INTERVAL + d;
    RepeatAt(Call(key, rpm, burst, s), EffectiveBurst(burst));
    RepeatAt(Call(key, rpm, burst, s + IDLE_EVICTION - d), EffectiveBurst(burst));
  }

  /** The three parts of the run, for either limiter. */
  lemma LateBurstParts(key: string, other: string, rpm: int, burst: int, d: int, sweeping: bool) returns (s: State)
    requires rpm > 0 && key != other && 0 <= d
    ensures Allowed(INITIAL, LateBurst(key, other, rpm, burst, d), key, sweeping) ==
            EffectiveBurst(burst) +
            Allowed(s, Repeat(Call(key, rpm, burst, SWEEP_INTERVAL + IDLE_EVICTION), EffectiveBurst(burst)), key, sweeping)
    ensures if sweeping then key !in s.buckets && s.lastSweep == SWEEP_INTERVAL + d + IDLE_EVICTION
            else key in s.buckets && s.buckets[key] == Bucket(0, SWEEP_INTERVAL + d)
  {
    var t := SWEEP_INTERVAL + d;
    var c, x, n := Call(key, rpm, burst, t), Call(other, rpm, burst, t + IDLE_EVICTION), EffectiveBurst(burst);
    var late := Repeat(Call(key, rpm, burst, t + IDLE_EVICTION - d), n);
    assert t + IDLE_EVICTION - d == SWEEP_INTERVAL + IDLE_EVICTION;
    FullBurst(INITIAL, c, n, sweeping);
    var drained := After(INITIAL, Repeat(c, n), sweeping);
    s := Step(drained, x, sweeping).0;
    assert After(drained, [x], sweeping) == s by { assert After(s, [x][1..], sweeping) == s; }
    assert Allowed(drained, [x], key, sweeping) == 0 by { assert Allowed(s, [x][1..], key, sweeping) == 0; }
    AllowedConcat(INITIAL, Repeat(c, n) + [x], late, key, sweeping);
    AllowedConcat(INITIAL, Repeat(c, n), [x], key, sweeping);
    AfterConcat(INITIAL, Repeat(c, n), [x], sweeping);
  }

  /** Calls at one instant are paid out of the level at that instant. */
  lemma RepeatWithinLevel(s: State, c: Call, n: nat)
    requires 0 < n && c.rpm > 0 && 0 < c.now && BucketInv(Lookup(s, c.key), EffectiveBurst(c.burst))
    ensures Tokens(Allowed(s, Repeat(c, n), c.key, false)) <= Level(Lookup(s, c.key), c.rpm, EffectiveBurst(c.burst), c.now)
  {
    var run := Repeat(c, n);
    RepeatAt(c, n);
    LevelPaysForStretch(s, run, c.key, c.rpm, EffectiveBurst(c.burst),
                        Level(Lookup(s, c.key), c.rpm, EffectiveBurst(c.burst), c.now), false);
    RiseIsSpanIff(run);
    PaidIsRateTimesRise(run, c.rpm);
  }

  /** If a burst does not refill in the window less `d`, a call `d` late tells the two limiters apart. */
  lemma LateBurstSeparates(key: string, other: string, rpm: int, burst: int, d: int)
    requires rpm > 0 && key != other && 0 <= d && Tokens(EffectiveBurst(burst)) > rpm * (IDLE_EVICTION - d)
    ensures var run := LateBurst(key, other, rpm, burst, d);
            Decisions(INITIAL, run, true) != Decisions(INITIAL, run, false)
  {
    var run, n := LateBurst(key, other, rpm, burst, d), EffectiveBurst(burst);
    var late := Call(key, rpm, burst, SWEEP_INTERVAL + IDLE_EVICTION);
    var sw := LateBurstParts(key, other, rpm, burst, d, true);
    var un := LateBurstParts(key, other, rpm, burst, d, false);
    FullBurst(sw, late, n, true);
    RepeatWithinLevel(un, late, n);
    LevelAfterDrain(rpm, n, SWEEP_INTERVAL + d, d);
    if Decisions(INITIAL, run, true) == Decisions(INITIAL, run, false) {
      SameDecisionsSameCount(INITIAL, INITIAL, run, key);
      assert false;
    }
  }

  lemma LevelAfterDrain(rpm: int, burst: int, t: int, d: int)
    requires rpm > 0 && burst > 0 && 0 < t && Tokens(burst) > rpm * (IDLE_EVICTION - d)
    ensures Level(Bucket(0, t), rpm, burst, t + IDLE_EVICTION - d) < Tokens(burst)
  {
    var up := Up(IDLE_EVICTION - d);
    assert up * rpm == rpm * up;
  }

  /** The limiter keeps within a burst and its rate on every run whose readings arrive at most `d` late. */
  ghost predicate SpanBounded(key: string, rpm: int, burst: int, d: int) {
    forall run: seq<Call> :: run != [] && Readings(run) && LateBy(run, d) && KeepsPlan(run, key, rpm, burst) ==>
      Tokens(Allowed(INITIAL, run, key, true)) <= Tokens(burst) + rpm * Span(run)
  }

  /** Going back and forth by `1` earns a token sooner or later, however little the rate pays for. */
  lemma {:induction false} ZigZag(s: State, c: Call) returns (run: seq<Call>)
    requires c.rpm > 0 && 1 < c.now && s.lastSweep == c.now && c.key in s.buckets
    requires s.buckets[c.key].last == c.now && 0 <= s.buckets[c.key].tokens < Tokens(1)
    ensures run != [] && run[|run| - 1] == c
    ensures forall i :: 0 <= i < |run| ==> run[i] == c || run[i] == c.(now := c.now - 1)
    ensures Allowed(s, run, c.key, true) >= 1
    decreases Tokens(1) - s.buckets[c.key].tokens
  {
    var late := c.(now := c.now - 1);
    var s1 := Step(s, late, true).0;
    assert s1 == State(s.buckets[c.key := Bucket(s.buckets[c.key].tokens, late.now)], s.lastSweep);
    var (s2, ok) := Step(s1, c, true);
    var rest: seq<Call> := [];
    if !ok {
      rest := ZigZag(s2, c);
    }
    run := [late, c] + rest;
    AllowedConcat(s, [late, c], rest, c.key, true);
    assert [late, c][1..] == [c] && [c][1..] == [];
    assert After(s1, [c], true) == After(s2, [], true);
    assert Allowed(s1, [c], c.key, true) == (if ok then 1 else 0) + Allowed(s2, [], c.key, true);
  }

  lemma NearOneInstant(run: seq<Call>, c: Call)
    requires 1 < c.now && forall i :: 0 <= i < |run| ==> run[i] == c || run[i] == c.(now := c.now - 1)
    ensures Readings(run) && LateBy(run, 1) && KeepsPlan(run, c.key, c.rpm, EffectiveBurst(c.burst))
  {
  }

  lemma LateRunOverruns(key: string, rpm: int, burst: int) returns (run: seq<Call>)
    requires rpm > 0 && burst > 0
    ensures run != [] && Readings(run) && LateBy(run, 1) && KeepsPlan(run, key, rpm, burst) && Span(run) == 0
    ensures Allowed(INITIAL, run, key, true) > burst
  {
    var c := Call(key, rpm, burst, SWEEP_INTERVAL);
    FullBurst(INITIAL, c, burst, true);
    var s := After(INITIAL, Repeat(c, burst), true);
    var rest := ZigZag(s, c);
    run := Repeat(c, burst) + rest;
    RepeatAt(c, burst);
    NearOneInstant(run, c);
    AllowedConcat(INITIAL, Repeat(c, burst), rest, key, true);
  }

  /** The bound by time spanned tolerates no lateness at all; `RiseBound` says what holds instead. */
  lemma SpanBoundedIff(key: string, rpm: int, burst: int, d: int)
    requires 0 < rpm && 0 < burst <= 10 * rpm && 0 <= d
    ensures SpanBounded(key, rpm, burst, d) <==> d == 0
  {
    if d == 0 {
      forall run: seq<Call> | run != [] && Readings(run) && LateBy(run, d) && KeepsPlan(run, key, rpm, burst)
        ensures Tokens(Allowed(INITIAL, run, key, true)) <= Tokens(burst) + rpm * Span(run)
      {
        assert [] + run == run && After(INITIAL, [], true) == INITIAL;
        RateBound([], run, key, rpm, burst, true);
      }
    } else {
      var run := LateRunOverruns(key, rpm, burst);
      assert LateBy(run, d);
      assert rpm * Span(run) == 0;
    }
  }

  // ---------------------------------------------------------------- configuration

  datatype Options = Options(defaultRPM: int, defaultBurst: int, searchRPM: int, batchRPM: int,
                             discoveryRPM: int, suggestRPM: int, publicStatsRPM: int)

  datatype Class = Unknown | Search | Suggest | Discovery | PublicStats | Batch

  datatype Request = Request(client: string, class_: Class, now: int)

  function BucketName(k: Class): string {
    match k
    case Unknown => "default"
    case Search => "search"
    case Suggest => "suggest"
    case Discovery => "discovery"
    case PublicStats => "public_stats"
    case Batch => "batch"
  }

  function PlanRPM(o: Options, k: Class): int {
    var own := match k
      case Unknown => 0
      case Search => o.searchRPM
      case Suggest => o.suggestRPM
      case Discovery => o.discoveryRPM
      case PublicStats => o.publicStatsRPM
      case Batch => o.batchRPM;
    if own > 0 then own else o.defaultRPM
  }

  function ClientKey(client: string, k: Class): string {
    (if client == "" then "unknown" else client) + ":" + BucketName(k)
  }

  /** The `allow` call the middleware makes for one request. */
  function ToCall(o: Options, r: Request): Call {
    Call(ClientKey(r.client, r.class_), PlanRPM(o, r.class_), EffectiveBurst(o.defaultBurst), r.now)
  }

  function ToCalls(o: Options, rs: seq<Request>): seq<Call> {
    seq(|rs|, i requires 0 <= i < |rs| => ToCall(o, rs[i]))
  }

  function RequestSpan(rs: seq<Request>): int
    requires rs != []
  {
    rs[|rs| - 1].now - rs[0].now
  }

  /** Requests whose clock readings reach the limiter at most `d` late; in order if `d` is zero. */
  ghost predicate RequestClock(rs: seq<Request>, d: int) {
    && (forall i :: 0 <= i < |rs| ==> 0 < rs[i].now)
    && (forall i, j :: 0 <= i < j < |rs| ==> rs[i].now - d <= rs[j].now)
  }

  /** The decisions the middleware takes, with or without idle eviction. */
  function Served(o: Options, rs: seq<Request>, sweeping: bool): seq<bool> {
    Decisions(INITIAL, ToCalls(o, rs), sweeping)
  }

  /** How many requests `client` gets through in class `k` during `mid`, after `pre`. */
  function Admitted(o: Options, pre: seq<Request>, mid: seq<Request>, client: string, k: Class): nat {
    Allowed(After(INITIAL, ToCalls(o, pre), true), ToCalls(o, mid), ClientKey(client, k), true)
  }

  ghost predicate ClassRefills(o: Options, k: Class) {
    PlanRPM(o, k) > 0 ==> EffectiveBurst(o.defaultBurst) <= 10 * PlanRPM(o, k)
  }

  /** A burst of class `k` refills in the eviction window less `d`. */
  ghost predicate ClassRefillsWithin(o: Options, k: Class, d: int) {
    PlanRPM(o, k) > 0 ==> Tokens(EffectiveBurst(o.defaultBurst)) <= PlanRPM(o, k) * (IDLE_EVICTION - d)
  }

  ghost predicate EvictionIsLossless(o: Options, d: int) {
    forall rs :: RequestClock(rs, d) ==> Served(o, rs, true) == Served(o, rs, false)
  }

  ghost predicate RateIsBounded(o: Options, k: Class) {
    forall pre: seq<Request>, mid: seq<Request>, client: string :: mid != [] && RequestClock(pre + mid, 0) ==>
      Tokens(Admitted(o, pre, mid, client, k)) <=
      Tokens(EffectiveBurst(o.defaultBurst)) + PlanRPM(o, k) * RequestSpan(mid)
  }

  lemma LastColonSplits(a: string, b: string, a': string, b': string)
    requires a + ":" + b == a' + ":" + b' && ':' !in b && ':' !in b'
    ensures b == b'
  {
    var s := a + ":" + b;
    assert s[|a|] == ':' && s[|a| + 1..] == b && s[|a'|] == ':' && s[|a'| + 1..] == b';
    if |a| < |a'| {
      assert false;
    } else if |a'| < |a| {
      assert false;
    }
  }

  lemma ClientKeyInjective(c: string, k: Class, c': string, k': Class)
    requires ClientKey(c, k) == ClientKey(c', k')
    ensures k == k'
  {
    var n := if c == "" then "unknown" else c;
    var n' := if c' == "" then "unknown" else c';
    LastColonSplits(n, BucketName(k), n', BucketName(k'));
    BucketNameInjective(k, k');
  }

  lemma BucketNameInjective(k: Class, k': Class)
    requires BucketName(k) == BucketName(k')
    ensures k == k'
  {
    assert |BucketName(k)| == |BucketName(k')|;
    assert BucketName(k)[0] == BucketName(k')[0];
  }

  lemma CallsAreClocked(o: Options, rs: seq<Request>, d: int)
    requires RequestClock(rs, d)
    ensures Readings(ToCalls(o, rs)) && LateBy(ToCalls(o, rs), d)
  {
  }

  lemma CallsKeepPlan(o: Options, rs: seq<Request>, client: string, k: Class)
    ensures KeepsPlan(ToCalls(o, rs), ClientKey(client, k), PlanRPM(o, k), EffectiveBurst(o.defaultBurst))
  {
    var run := ToCalls(o, rs);
    forall i | 0 <= i < |run| && run[i].key == ClientKey(client, k)
      ensures run[i].rpm == PlanRPM(o, k)
    {
      ClientKeyInjective(rs[i].client, rs[i].class_, client, k);
    }
  }

  /** Requests of one anonymous client that overdraw class `k`. */
  lemma OverdrawRequests(o: Options, k: Class) returns (rs: seq<Request>)
    requires PlanRPM(o, k) > 0 && !ClassRefills(o, k)
    ensures rs != [] && RequestClock(rs, 0) && RequestSpan(rs) == IDLE_EVICTION
    ensures Allowed(INITIAL, ToCalls(o, rs), ClientKey("", k), true) > EffectiveBurst(o.defaultBurst) + 10 * PlanRPM(o, k)
    ensures Served(o, rs, true) != Served(o, rs, false)
  {
    var run := OverdrawSeparates(ClientKey("", k), PlanRPM(o, k), EffectiveBurst(o.defaultBurst));
    rs := seq(|run|, i requires 0 <= i < |run| => Request("", k, run[i].now));
    assert ToCalls(o, rs) == run;
  }

  lemma LateBurstRequests(o: Options, k: Class, d: int) returns (rs: seq<Request>)
    requires !ClassRefillsWithin(o, k, d) && 0 <= d
    ensures RequestClock(rs, d) && Served(o, rs, true) != Served(o, rs, false)
  {
    var key, other, burst := ClientKey("", k), ClientKey("x", k), EffectiveBurst(o.defaultBurst);
    assert |key| != |other|;
    var run := LateBurst(key, other, PlanRPM(o, k), burst, d);
    LateBurstShape(key, other, PlanRPM(o, k), burst, d);
    LateBurstSeparates(key, other, PlanRPM(o, k), burst, d);
    rs := seq(|run|, i requires 0 <= i < |run| => Request(if run[i].key == key then "" else "x", k, run[i].now));
    assert ToCalls(o, rs) == run;
  }

  /**
   * "Eviction is semantically lossless": true of exactly the configurations whose bursts refill in the
   * eviction window less the longest delay between reading the clock and taking the lock.
   */
  lemma EvictionLosslessIff(o: Options, d: int)
    requires 0 <= d
    ensures EvictionIsLossless(o, d) <==> forall k :: ClassRefillsWithin(o, k, d)
  {
    if forall k :: ClassRefillsWithin(o, k, d) {
      forall rs: seq<Request> | RequestClock(rs, d)
        ensures Served(o, rs, true) == Served(o, rs, false)
      {
        CallsAreClocked(o, rs, d);
        assert forall i :: 0 <= i < |rs| ==> ClassRefillsWithin(o, rs[i].class_, d);
        SimulationOverRuns(INITIAL, INITIAL, 0, ToCalls(o, rs), d);
      }
    } else {
      var k :| !ClassRefillsWithin(o, k, d);
      var rs := LateBurstRequests(o, k, d);
    }
  }

  /** Without such delays: ten minutes of every enabled rate make up a burst. */
  lemma EvictionLosslessInOrderIff(o: Options)
    ensures EvictionIsLossless(o, 0) <==> forall k :: ClassRefills(o, k)
  {
    EvictionLosslessIff(o, 0);
    forall k ensures ClassRefillsWithin(o, k, 0) <==> ClassRefills(o, k) {
      IdleWindowPays(PlanRPM(o, k), IDLE_EVICTION);
    }
  }

  lemma RefillingClassIsBounded(o: Options, k: Class, pre: seq<Request>, mid: seq<Request>, client: string)
    requires PlanRPM(o, k) > 0 && ClassRefills(o, k) && mid != [] && RequestClock(pre + mid, 0)
    ensures Tokens(Admitted(o, pre, mid, client, k)) <=
            Tokens(EffectiveBurst(o.defaultBurst)) + PlanRPM(o, k) * RequestSpan(mid)
  {
    CallsAreClocked(o, pre + mid, 0);
    CallsKeepPlan(o, pre + mid, client, k);
    assert ToCalls(o, pre + mid) == ToCalls(o, pre) + ToCalls(o, mid);
    assert Span(ToCalls(o, mid)) == RequestSpan(mid);
    RateBound(ToCalls(o, pre), ToCalls(o, mid), ClientKey(client, k), PlanRPM(o, k), EffectiveBurst(o.defaultBurst), true);
  }

  lemma AdmittedFromStart(o: Options, rs: seq<Request>, client: string, k: Class)
    ensures Admitted(o, [], rs, client, k) == Allowed(INITIAL, ToCalls(o, rs), ClientKey(client, k), true)
  {
    assert ToCalls(o, []) == [];
  }

  lemma NonRefillingClassOverruns(o: Options, k: Class) returns (rs: seq<Request>)
    requires PlanRPM(o, k) > 0 && !ClassRefills(o, k)
    ensures rs != [] && RequestClock([] + rs, 0)
    ensures Tokens(Admitted(o, [], rs, "", k)) >
            Tokens(EffectiveBurst(o.defaultBurst)) + PlanRPM(o, k) * RequestSpan(rs)
  {
    rs := OverdrawRequests(o, k);
    assert [] + rs == rs;
    AdmittedFromStart(o, rs, "", k);
    IdleWindowPays(PlanRPM(o, k), RequestSpan(rs));
  }

  /** The evicting limiter enforces its own rate on exactly the classes that refill while idle. */
  lemma RateBoundedIff(o: Options, k: Class)
    requires PlanRPM(o, k) > 0
    ensures RateIsBounded(o, k) <==> ClassRefills(o, k)
  {
    if ClassRefills(o, k) {
      forall pre: seq<Request>, mid: seq<Request>, client: string | mid != [] && RequestClock(pre + mid, 0)
        ensures Tokens(Admitted(o, pre, mid, client, k)) <=
                Tokens(EffectiveBurst(o.defaultBurst)) + PlanRPM(o, k) * RequestSpan(mid)
      {
        RefillingClassIsBounded(o, k, pre, mid, client);
      }
    } else {
      var rs := NonRefillingClassOverruns(o, k);
    }
  }

  // ---------------------------------------------------------------- which requests are served

  /** The rate of a class: its own if that is positive, and the default otherwise. */
  lemma PlanIs(o: Options)
    ensures PlanRPM(o, Unknown) == o.defaultRPM
    ensures PlanRPM(o, Search) == if o.searchRPM > 0 then o.searchRPM else o.defaultRPM
    ensures PlanRPM(o, Suggest) == if o.suggestRPM > 0 then o.suggestRPM else o.defaultRPM
    ensures PlanRPM(o, Discovery) == if o.discoveryRPM > 0 then o.discoveryRPM else o.defaultRPM
    ensures PlanRPM(o, PublicStats) == if o.publicStatsRPM > 0 then o.publicStatsRPM else o.defaultRPM
    ensures PlanRPM(o, Batch) == if o.batchRPM > 0 then o.batchRPM else o.defaultRPM
  {
  }

  /** Buckets go by client and class; requests whose client is not known share theirs. */
  lemma ClientKeyIs(client: string)
    requires client != ""
    ensures forall k :: ClientKey(client, k) == client + ":" + BucketName(k)
    ensures forall k :: ClientKey("", k) == ClientKey("unknown", k)
    ensures BucketName(Unknown) == "default" && BucketName(Search) == "search" && BucketName(Suggest) == "suggest"
    ensures BucketName(Discovery) == "discovery" && BucketName(PublicStats) == "public_stats"
    ensures BucketName(Batch) == "batch"
  {
  }

  /** The limiter after the requests `rs`. */
  function Buckets(o: Options, rs: seq<Request>): State {
    After(INITIAL, ToCalls(o, rs), true)
  }

  lemma {:induction false} LastDecision(s: State, run: seq<Call>, c: Call, sweeping: bool)
    ensures Decisions(s, run + [c], sweeping)[|run|] == Step(After(s, run, sweeping), c, sweeping).1
    ensures After(s, run + [c], sweeping) == Step(After(s, run, sweeping), c, sweeping).0
    decreases |run|
  {
    var all := run + [c];
    if run == [] {
      assert all == [c] && [c][1..] == [];
    } else {
      assert all[1..] == run[1..] + [c] && all[0] == run[0];
      LastDecision(Step(s, run[0], sweeping).0, run[1..], c, sweeping);
    }
  }

  lemma CallsOf(o: Options, rs: seq<Request>, r: Request)
    ensures ToCalls(o, rs + [r]) == ToCalls(o, rs) + [ToCall(o, r)] && |ToCalls(o, rs)| == |rs|
  {
  }

  /** A request of a class without a positive rate is always served and leaves the limiter as it was. */
  lemma UnlimitedIsServed(o: Options, rs: seq<Request>, r: Request, sweeping: bool)
    requires o.defaultRPM <= 0
    requires match r.class_
             case Unknown => true
             case Search => o.searchRPM <= 0
             case Suggest => o.suggestRPM <= 0
             case Discovery => o.discoveryRPM <= 0
             case PublicStats => o.publicStatsRPM <= 0
             case Batch => o.batchRPM <= 0
    ensures Served(o, rs + [r], sweeping)[|rs|]
    ensures Buckets(o, rs + [r]) == Buckets(o, rs)
  {
    PlanIs(o);
    CallsOf(o, rs, r);
    LastDecision(INITIAL, ToCalls(o, rs), ToCall(o, r), sweeping);
    LastDecision(INITIAL, ToCalls(o, rs), ToCall(o, r), true);
  }

  /** Serving `r` after `a + b` keeps its client within a burst plus the rate since the first request of `b`. */
  ghost predicate Within(o: Options, a: seq<Request>, b: seq<Request>, r: Request)
    requires b != []
  {
    var burst := if o.defaultBurst <= 0 then 1 else o.defaultBurst;
    (Admitted(o, a, b, r.client, r.class_) + 1) * 60_000_000_000 <=
    burst * 60_000_000_000 + PlanRPM(o, r.class_) * (r.now - b[0].now)
  }

  ghost predicate SameBucket(r: Request, r': Request) {
    ClientKey(r.client, r.class_) == ClientKey(r'.client, r'.class_)
  }

  /** A stretch of requests and the stretch of calls they make. */
  lemma WithinIsFits(o: Options, a: seq<Request>, b: seq<Request>, r: Request)
    requires b != []
    ensures var y := ToCalls(o, b);
            && ToCalls(o, a + b) == ToCalls(o, a) + y && y[0] == ToCall(o, b[0])
            && (Within(o, a, b, r) <==>
                Fits(Allowed(After(INITIAL, ToCalls(o, a), true), y, ToCall(o, r).key, true), PlanRPM(o, r.class_),
                     EffectiveBurst(o.defaultBurst), y[0].now, r.now))
  {
    assert ToCalls(o, b)[0] == ToCall(o, b[0]);
  }

  /** Serving `r` keeps every stretch from an earlier request for its bucket within a burst plus the rate. */
  ghost predicate RequestFits(o: Options, rs: seq<Request>, r: Request) {
    forall a: seq<Request>, b: seq<Request> :: a + b == rs && b != [] && SameBucket(b[0], r) ==> Within(o, a, b, r)
  }

  lemma FitsBothWays(o: Options, rs: seq<Request>, r: Request)
    ensures CallFits(ToCalls(o, rs), ToCall(o, r), EffectiveBurst(o.defaultBurst)) <==> RequestFits(o, rs, r)
  {
    var pre, c, burst := ToCalls(o, rs), ToCall(o, r), EffectiveBurst(o.defaultBurst);
    if CallFits(pre, c, burst) {
      forall a: seq<Request>, b: seq<Request> | a + b == rs && b != [] && SameBucket(b[0], r)
        ensures Within(o, a, b, r)
      {
        WithinIsFits(o, a, b, r);
      }
    }
    if RequestFits(o, rs, r) {
      CallsFit(o, rs, r);
    }
  }

  lemma CallsFit(o: Options, rs: seq<Request>, r: Request)
    requires RequestFits(o, rs, r)
    ensures CallFits(ToCalls(o, rs), ToCall(o, r), EffectiveBurst(o.defaultBurst))
  {
    var pre, c, burst := ToCalls(o, rs), ToCall(o, r), EffectiveBurst(o.defaultBurst);
    forall x: seq<Call>, y: seq<Call> | x + y == pre && y != [] && y[0].key == c.key
      ensures Fits(Allowed(After(INITIAL, x, true), y, c.key, true), c.rpm, burst, y[0].now, c.now)
    {
      var a, b := SplitRequests(o, rs, x, y);
      WithinIsFits(o, a, b, r);
    }
  }

  lemma SplitRequests(o: Options, rs: seq<Request>, x: seq<Call>, y: seq<Call>) returns (a: seq<Request>, b: seq<Request>)
    requires x + y == ToCalls(o, rs)
    ensures a + b == rs && ToCalls(o, a) == x && ToCalls(o, b) == y
  {
    a, b := rs[..|x|], rs[|x|..];
    forall i | 0 <= i < |x| ensures ToCalls(o, a)[i] == x[i] {
      assert (x + y)[i] == ToCall(o, rs[i]);
    }
    forall i | 0 <= i < |y| ensures ToCalls(o, b)[i] == y[i] {
      assert (x + y)[|x| + i] == ToCall(o, rs[|x| + i]);
    }
  }

  /**
   * Exactly which requests are served, for a class that refills while idle: those that keep their client, in every
   * stretch from one of its earlier requests of the class to this one, within a burst plus the rate of the class.
   */
  lemma ServedIff(o: Options, rs: seq<Request>, r: Request)
    requires RequestClock(rs + [r], 0) && PlanRPM(o, r.class_) > 0 && ClassRefills(o, r.class_)
    ensures Served(o, rs + [r], true)[|rs|] <==> RequestFits(o, rs, r)
  {
    var pre, c, burst := ToCalls(o, rs), ToCall(o, r), EffectiveBurst(o.defaultBurst);
    CallsOf(o, rs, r);
    LastDecision(INITIAL, pre, c, true);
    CallsAreClocked(o, rs + [r], 0);
    CallsKeepPlan(o, rs + [r], r.client, r.class_);
    LetThroughIff(pre, c, burst);
    FitsBothWays(o, rs, r);
  }
}
