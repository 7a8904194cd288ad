/**
 * The homepage warmer (internal/api/handlers_discovery_home.go): a ticker visits the default
 * bundles and rebuilds the ones that are no longer fresh.  The result is that the cache under
 * it never has to answer a warmed key with a miss.
 */
module HomeWarmer {
  import opened ResponseCache
  import CacheBuilds

  const SECOND: int := 1_000_000_000
  const WARM_TIMEOUT: int := 15 * SECOND

  /** Half the bundle ttl, kept between thirty seconds and two minutes. */
  function Interval(ttl: int): int {
    var half := ttl / 2;
    if half < 30 * SECOND then 30 * SECOND
    else if half > 120 * SECOND then 120 * SECOND
    else half
  }

  /** Thirty seconds for ttls below a minute, two minutes for ttls above four, and half the ttl in between. */
  lemma IntervalIs(ttl: int)
    ensures ttl < 60_000_000_000 ==> Interval(ttl) == 30_000_000_000
    ensures ttl > 240_000_000_000 ==> Interval(ttl) == 120_000_000_000
    ensures 60_000_000_000 <= ttl <= 240_000_000_000 ==> 2 * Interval(ttl) <= ttl <= 2 * Interval(ttl) + 1
  {
  }

  /** The ticker is at least as quick as the grace window exactly for ttls of thirty seconds or more. */
  lemma IntervalWithinGraceIff(ttl: int)
    ensures Interval(ttl) <= StaleGrace(ttl) <==> ttl >= 30 * SECOND
  {
  }

  /** A visit of the warmer to a key: when, and how much of the trace came before. */
  datatype Visit = Visit(pos: nat, at: int)

  ghost predicate WellPlaced(ops: seq<Op>, v: Visit) {
    v.pos <= |ops| && NotBefore(ops[..v.pos], v.at) && forall j :: v.pos <= j < |ops| ==> v.at <= ops[j].now
  }

  /** After the first `p` operations the entry is fresh at time `r`. */
  ghost predicate FoundFresh(maxEntries: int, ops: seq<Op>, key: string, p: nat, r: int) {
    p <= |ops| && CacheBuilds.IsFresh(LookupSpec(RunOf(maxEntries, ops[..p]), key, r))
  }

  ghost predicate SkippedAsFresh(maxEntries: int, ops: seq<Op>, key: string, v: Visit, e: int) {
    exists p: nat, r: int :: v.at - e <= r && FoundFresh(maxEntries, ops, key, p, r)
  }

  ghost predicate Landed(ops: seq<Op>, key: string, v: Visit) {
    exists j :: v.pos <= j < |ops| && Stores(ops[j]) && ops[j].key == key
  }

  /**
   * What the warmer does about a visit: nothing if the entry is fresh, or was when a flight looked that is not yet
   * gone after at most `e`; otherwise a build, its own or one already in flight, which lands within `d`.
   */
  ghost predicate Answered(maxEntries: int, ops: seq<Op>, key: string, v: Visit, d: int, e: int, now: int) {
    SkippedAsFresh(maxEntries, ops, key, v, e) || Landed(ops, key, v) || now <= v.at + d
  }

  /** The n-th gap is at most `g`; the first may be as long as `f`. */
  function GapLimit(n: nat, f: int, g: int): int {
    if n == 0 then f else g
  }

  ghost predicate CloseTogether(times: seq<int>, f: int, g: int, now: int) {
    && times != []
    && (forall i :: 0 < i < |times| ==> times[i] - times[i - 1] <= GapLimit(i - 1, f, g))
    && now - times[|times| - 1] <= GapLimit(|times| - 1, f, g)
  }

  function Times(visits: seq<Visit>): seq<int> {
    seq(|visits|, i requires 0 <= i < |visits| => visits[i].at)
  }

  ghost predicate Schedule(ops: seq<Op>, visits: seq<Visit>, f: int, g: int, now: int) {
    (forall i :: 0 <= i < |visits| ==> WellPlaced(ops, visits[i])) && CloseTogether(Times(visits), f, g, now)
  }

  /** A visit more than `e` after the newest entry expired neither finds it fresh nor has landed yet. */
  lemma LateVisitIsInFlight(maxEntries: int, ops: seq<Op>, key: string, ttl: int, v: Visit, d: int, e: int, now: int)
    requires Clocked(ops) && WellPlaced(ops, v) && ttl > 0 && 0 <= e
    requires forall i :: 0 <= i < |ops| && Stores(ops[i]) && ops[i].key == key ==> ops[i].ttl == ttl
    requires LastSet(ops, key) >= 0 && v.at >= ops[LastSet(ops, key)].now + ttl + e
    requires Answered(maxEntries, ops, key, v, d, e, now)
    ensures now <= v.at + d
  {
    if SkippedAsFresh(maxEntries, ops, key, v, e) {
      var p: nat, r: int :| v.at - e <= r && FoundFresh(maxEntries, ops, key, p, r);
      HitMatchesTrace(maxEntries, ops[..p], key, r);
      var i := LastSet(ops[..p], key);
      assert ops[..p][i] == ops[i];
      StoreNotAfterLast(ops, key, i);
    }
    if Landed(ops, key, v) {
      var j :| v.pos <= j < |ops| && Stores(ops[j]) && ops[j].key == key;
      StoreNotAfterLast(ops, key, j);
    }
  }

  lemma {:induction false} StoreNotAfterLast(ops: seq<Op>, key: string, i: nat)
    requires Clocked(ops) && i < |ops| && Stores(ops[i]) && ops[i].key == key
    ensures LastSet(ops, key) >= i && ops[i].now <= ops[LastSet(ops, key)].now
    decreases |ops|
  {
    if i < |ops| - 1 && !(Stores(ops[|ops| - 1]) && ops[|ops| - 1].key == key) {
      StoreNotAfterLast(ops[..|ops| - 1], key, i);
    }
  }

  /** The first visit at or after `limit`, which the visit before it missed by less than the gap. */
  lemma {:induction false} FirstLateVisit(times: seq<int>, f: int, g: int, now: int, limit: int, n: nat)
    returns (m: nat)
    requires CloseTogether(times, f, g, now) && n < |times| && times[0] < limit <= times[n]
    ensures 0 < m <= n && limit <= times[m] && times[m - 1] < limit
  {
    if times[n - 1] < limit {
      m := n;
    } else {
      m := FirstLateVisit(times, f, g, now, limit, n - 1);
    }
  }

  /** Nothing comes later than a stale window after `expiry`, which is a ttl after the first visit or later. */
  lemma InTime(times: seq<int>, f: int, g: int, now: int, expiry: int, m: nat, ttl: int, d: int, e: int)
    requires CloseTogether(times, f, g, now) && 0 < m <= |times| && times[m - 1] < expiry + e
    requires times[0] + ttl <= expiry
    requires 0 <= d && f + d < ttl + StaleGrace(ttl) && g + d + e <= StaleGrace(ttl)
    ensures (if m < |times| then times[m] else now) + d < expiry + StaleGrace(ttl)
  {
    assert m < |times| ==> times[m] - times[m - 1] <= GapLimit(m - 1, f, g);
  }

  /**
   * A key visited at least every `g` whose builds land within `d` is always answered once its first
   * build has landed, although visits that find it fresh are skipped.  Before the second visit there is
   * more time: almost a ttl and the grace window.
   */
  lemma WarmKeyNeverMisses(maxEntries: int, ops: seq<Op>, key: string, ttl: int, visits: seq<Visit>,
                           f: int, g: int, d: int, e: int, landing: nat, now: int)
    requires Clocked(ops) && NotBefore(ops, now) && ttl > 0 && 0 <= d && 0 <= e
    requires f + d < ttl + StaleGrace(ttl) && g + d + e <= StaleGrace(ttl)
    requires forall i :: 0 <= i < |ops| && Stores(ops[i]) && ops[i].key == key ==> ops[i].ttl == ttl
    requires Schedule(ops, visits, f, g, now)
    requires forall i :: 0 <= i < |visits| ==> Answered(maxEntries, ops, key, visits[i], d, e, now)
    requires |visits| > 0 && visits[0].pos <= landing < |ops| && Stores(ops[landing]) && ops[landing].key == key
    requires !PushedOut(ops, key, Capacity(maxEntries))
    ensures LookupSpec(RunOf(maxEntries, ops), key, now).Hit?
  {
    StoreNotAfterLast(ops, key, landing);
    var expiry := ops[LastSet(ops, key)].now + ttl;
    assert now < expiry + StaleGrace(ttl) by {
      assert visits[0].at <= ops[landing].now;
      NotTooLate(maxEntries, ops, key, ttl, visits, f, g, d, e, now);
    }
    LookupMatchesTrace(maxEntries, ops, key, now);
  }

  lemma NotTooLate(maxEntries: int, ops: seq<Op>, key: string, ttl: int, visits: seq<Visit>,
                   f: int, g: int, d: int, e: int, now: int)
    requires Clocked(ops) && NotBefore(ops, now) && ttl > 0 && 0 <= d && 0 <= e
    requires f + d < ttl + StaleGrace(ttl) && g + d + e <= StaleGrace(ttl)
    requires forall i :: 0 <= i < |ops| && Stores(ops[i]) && ops[i].key == key ==> ops[i].ttl == ttl
    requires Schedule(ops, visits, f, g, now)
    requires forall i :: 0 <= i < |visits| ==> Answered(maxEntries, ops, key, visits[i], d, e, now)
    requires |visits| > 0 && LastSet(ops, key) >= 0 && visits[0].at <= ops[LastSet(ops, key)].now
    ensures now < ops[LastSet(ops, key)].now + ttl + StaleGrace(ttl)
  {
    var expiry, times, n := ops[LastSet(ops, key)].now + ttl, Times(visits), |visits| - 1;
    if times[n] >= expiry + e {
      var m := FirstLateVisit(times, f, g, now, expiry + e, n);
      InTime(times, f, g, now, expiry, m, ttl, d, e);
      LateVisitIsInFlight(maxEntries, ops, key, ttl, visits[m], d, e, now);
    } else {
      InTime(times, f, g, now, expiry, |times|, ttl, d, e);
    }
  }

  /**
   * One visit per pass, when a pass takes at most `p`: the first pass is over when the ticker is created at
   * `start`, and the others start on its ticks.
   */
  ghost predicate OnTicks(times: seq<int>, start: int, interval: int, p: int) {
    && times != [] && start - p <= times[0] <= start
    && forall i :: 0 < i < |times| ==> start + i * interval <= times[i] <= start + i * interval + p
  }

  /** Such visits are at most an interval and a pass apart, except for the first two: an interval and two passes. */
  lemma TickedVisitsAreClose(times: seq<int>, start: int, interval: int, p: int, now: int)
    requires OnTicks(times, start, interval, p) && now <= start + |times| * interval + p
    ensures CloseTogether(times, interval + 2 * p, interval + p, now)
  {
    assert |times| * interval == (|times| - 1) * interval + interval;
    forall i | 0 < i < |times| ensures times[i] - times[i - 1] <= GapLimit(i - 1, interval + 2 * p, interval + p) {
      assert i * interval == (i - 1) * interval + interval;
    }
  }

  // ---------------------------------------------------------------- visits as calls of the rebuild protocol

  /** The states before, between and after the steps of a run of the rebuild protocol. */
  ghost predicate Trail(c: CacheBuilds.Config, steps: seq<CacheBuilds.Step>, states: seq<CacheBuilds.State>) {
    && |states| == |steps| + 1 && states[0] == CacheBuilds.INITIAL
    && forall i :: 0 <= i < |steps| ==>
         CacheBuilds.Enabled(states[i], steps[i]) && states[i + 1] == CacheBuilds.Apply(c, states[i], steps[i])
  }

  lemma {:induction false} TrailInv(c: CacheBuilds.Config, steps: seq<CacheBuilds.Step>, states: seq<CacheBuilds.State>,
                                    n: nat)
    requires Trail(c, steps, states) && n <= |steps|
    ensures CacheBuilds.Inv(c, states[n])
  {
    if n > 0 {
      TrailInv(c, steps, states, n - 1);
      CacheBuilds.InvStep(c, states[n - 1], steps[n - 1]);
    }
  }

  lemma {:induction false} TrailGrows(c: CacheBuilds.Config, steps: seq<CacheBuilds.Step>,
                                      states: seq<CacheBuilds.State>, m: nat, n: nat)
    requires Trail(c, steps, states) && m <= n <= |steps|
    ensures states[m].trace <= states[n].trace && states[m].log <= states[n].log && states[m].now <= states[n].now
    ensures forall j :: |states[m].trace| <= j < |states[n].trace| ==> states[m].now <= states[n].trace[j].now
    decreases n
  {
    if m < n {
      TrailGrows(c, steps, states, m, n - 1);
      var s, s' := states[n - 1], states[n];
      assert s.trace <= s'.trace && s.log <= s'.log && s.now <= s'.now;
      assert |s'.trace| > |s.trace| ==> s'.trace[|s.trace|].now == s.now;
    }
  }

  /** From step `v` on, the flight the call started or joined has not got its result. */
  ghost predicate Unsettled(states: seq<CacheBuilds.State>, key: string, v: nat, n: nat) {
    n < |states| && forall m :: v < m <= n ==> key in states[m].flights && !states[m].flights[key].Leaving?
  }

  ghost predicate FailedSince(log: seq<CacheBuilds.Event>, key: string, from: nat) {
    exists e :: from <= e < |log| && log[e].Ended? && log[e].key == key && !log[e].stored
  }

  /** A flight of `key` is leaving, having found the entry fresh, stored it or failed. */
  ghost predicate Settled(c: CacheBuilds.Config, s: CacheBuilds.State, key: string) {
    && key in s.flights && s.flights[key].Leaving?
    && (FoundFresh(c.maxEntries, s.trace, key, s.flights[key].pos, s.flights[key].since) || FailedSince(s.log, key, 0))
  }

  ghost predicate FreshLater(maxEntries: int, ops: seq<Op>, key: string, from: int) {
    exists p: nat, r: int :: from <= r && FoundFresh(maxEntries, ops, key, p, r)
  }

  /** What can have become of the call made in step `v` by the time of state `n`. */
  ghost predicate Outcome(c: CacheBuilds.Config, states: seq<CacheBuilds.State>, key: string, v: nat, n: nat)
    requires v < n < |states|
  {
    || Unsettled(states, key, v, n)
    || Settled(c, states[v], key)
    || Landed(states[n].trace, key, Visit(|states[v].trace|, states[v].now))
    || FailedSince(states[n].log, key, |states[v].log|)
    || FreshLater(c.maxEntries, states[n].trace, key, states[v].now)
  }

  lemma FoundFreshPersists(maxEntries: int, ops: seq<Op>, ops': seq<Op>, key: string, p: nat, r: int)
    requires FoundFresh(maxEntries, ops, key, p, r) && ops <= ops'
    ensures FoundFresh(maxEntries, ops', key, p, r)
  {
    assert ops'[..p] == ops[..p];
  }

  lemma FailedPersists(log: seq<CacheBuilds.Event>, log': seq<CacheBuilds.Event>, key: string, from: nat)
    requires FailedSince(log, key, from) && log <= log'
    ensures FailedSince(log', key, from)
  {
    var e :| from <= e < |log| && log[e].Ended? && log[e].key == key && !log[e].stored;
    assert log'[e] == log[e];
  }

  lemma OutcomePersists(c: CacheBuilds.Config, steps: seq<CacheBuilds.Step>, states: seq<CacheBuilds.State>,
                        key: string, v: nat, n: nat)
    requires Trail(c, steps, states) && v < n < |steps| && Outcome(c, states, key, v, n)
    requires !Unsettled(states, key, v, n)
    ensures Outcome(c, states, key, v, n + 1)
  {
    TrailGrows(c, steps, states, n, n + 1);
    var visit := Visit(|states[v].trace|, states[v].now);
    var trace, trace' := states[n].trace, states[n + 1].trace;
    if Landed(trace, key, visit) {
      var j :| visit.pos <= j < |trace| && Stores(trace[j]) && trace[j].key == key;
      assert trace'[j] == trace[j];
    } else if FailedSince(states[n].log, key, |states[v].log|) {
      FailedPersists(states[n].log, states[n + 1].log, key, |states[v].log|);
    } else if FreshLater(c.maxEntries, trace, key, visit.at) {
      var p: nat, r: int :| visit.at <= r && FoundFresh(c.maxEntries, trace, key, p, r);
      FoundFreshPersists(c.maxEntries, trace, trace', key, p, r);
    }
  }

  /** What a flight settles on: a fresh entry, a store or a failure. */
  lemma FlightSettles(c: CacheBuilds.Config, steps: seq<CacheBuilds.Step>, states: seq<CacheBuilds.State>,
                      key: string, n: nat)
    requires Trail(c, steps, states) && n < |steps| && key in states[n + 1].flights
    requires states[n + 1].flights[key].Leaving?
    requires key !in states[n].flights || states[n].flights[key] != states[n + 1].flights[key]
    ensures Settled(c, states[n + 1], key) && states[n + 1].flights[key].since == states[n].now
    ensures || FreshLater(c.maxEntries, states[n + 1].trace, key, states[n].now)
            || (|states[n + 1].log| == |states[n].log| + 1 && FailedSince(states[n + 1].log, key, |states[n].log|))
  {
    TrailGrows(c, steps, states, n, n + 1);
    var s, s', step := states[n], states[n + 1], steps[n];
    var f := s'.flights[key];
    if step.Recheck? {
      assert s'.trace[..|s.trace|] == s.trace;
      assert FoundFresh(c.maxEntries, s'.trace, key, f.pos, f.since);
    } else {
      assert step.Finish? && step.key == key;
      var e := s'.log[|s.log|];
      if e.stored {
        StoredIsFresh(c.maxEntries, s.trace, s'.trace[|s.trace|]);
        assert s'.trace[..f.pos] == s'.trace == s.trace + [s'.trace[|s.trace|]];
        assert FoundFresh(c.maxEntries, s'.trace, key, f.pos, f.since);
      } else {
        assert e.Ended? && e.key == key;
      }
    }
  }

  lemma StoredIsFresh(maxEntries: int, ops: seq<Op>, op: Op)
    requires Stores(op)
    ensures CacheBuilds.IsFresh(LookupSpec(RunOf(maxEntries, ops + [op]), op.key, op.now))
  {
    assert (ops + [op])[..|ops|] == ops;
  }

  /** A flight that is leaving has settled. */
  lemma {:induction false} LeavingIsSettled(c: CacheBuilds.Config, steps: seq<CacheBuilds.Step>,
                                            states: seq<CacheBuilds.State>,
                                            key: string, n: nat)
    requires Trail(c, steps, states) && n <= |steps| && key in states[n].flights && states[n].flights[key].Leaving?
    ensures Settled(c, states[n], key)
    decreases n
  {
    if n > 0 {
      var s, s' := states[n - 1], states[n];
      if key in s.flights && s.flights[key] == s'.flights[key] {
        LeavingIsSettled(c, steps, states, key, n - 1);
        TrailGrows(c, steps, states, n - 1, n);
        var f := s.flights[key];
        if FoundFresh(c.maxEntries, s.trace, key, f.pos, f.since) {
          FoundFreshPersists(c.maxEntries, s.trace, s'.trace, key, f.pos, f.since);
        } else {
          FailedPersists(s.log, s'.log, key, 0);
        }
      } else {
        FlightSettles(c, steps, states, key, n - 1);
      }
    }
  }

  /**
   * In every interleaving a call joins a flight that has settled already, or its flight has not settled yet, or it has
   * led to a fresh entry, a store or a failure since.
   */
  lemma {:induction false} CallHasOutcome(c: CacheBuilds.Config, steps: seq<CacheBuilds.Step>,
                                          states: seq<CacheBuilds.State>,
                                          key: string, v: nat, n: nat)
    requires Trail(c, steps, states) && v < n <= |steps| && steps[v] == CacheBuilds.Call(key)
    ensures Outcome(c, states, key, v, n)
    decreases n
  {
    if n == v + 1 {
      if key in states[v].flights && states[v].flights[key].Leaving? {
        LeavingIsSettled(c, steps, states, key, v);
      }
    } else {
      CallHasOutcome(c, steps, states, key, v, n - 1);
      if !Unsettled(states, key, v, n - 1) {
        OutcomePersists(c, steps, states, key, v, n - 1);
      } else if !Unsettled(states, key, v, n) {
        CallSettles(c, steps, states, key, v, n - 1);
      }
    }
  }

  lemma CallSettles(c: CacheBuilds.Config, steps: seq<CacheBuilds.Step>, states: seq<CacheBuilds.State>,
                    key: string, v: nat, n: nat)
    requires Trail(c, steps, states) && v < n < |steps| && Unsettled(states, key, v, n)
    requires !Unsettled(states, key, v, n + 1)
    ensures Outcome(c, states, key, v, n + 1)
  {
    TrailGrows(c, steps, states, v, n);
    assert key in states[n + 1].flights && states[n + 1].flights[key].Leaving?;
    FlightSettles(c, steps, states, key, n);
    if FreshLater(c.maxEntries, states[n + 1].trace, key, states[n].now) {
      var p: nat, r: int :| states[n].now <= r && FoundFresh(c.maxEntries, states[n + 1].trace, key, p, r);
      assert FreshLater(c.maxEntries, states[n + 1].trace, key, states[v].now);
    } else {
      var e :| |states[n].log| <= e < |states[n + 1].log| && states[n + 1].log[e].Ended? &&
               states[n + 1].log[e].key == key && !states[n + 1].log[e].stored;
      assert |states[v].log| <= e;
    }
  }

  /** The call in step `v` is settled within `d`, and a flight it joins has been leaving for at most `e`. */
  ghost predicate Timely(states: seq<CacheBuilds.State>, key: string, v: nat, d: int, e: int)
    requires v < |states|
  {
    var n := |states| - 1;
    && (Unsettled(states, key, v, n) ==> states[n].now <= states[v].now + d)
    && (key in states[v].flights && states[v].flights[key].Leaving? ==> states[v].now - e <= states[v].flights[key].since)
  }

  /** Without failures, a timely call is answered in the sense of `WarmKeyNeverMisses`. */
  lemma CallIsAnswered(c: CacheBuilds.Config, steps: seq<CacheBuilds.Step>, states: seq<CacheBuilds.State>,
                       key: string, v: nat, d: int, e: int)
    requires Trail(c, steps, states) && v < |steps| && steps[v] == CacheBuilds.Call(key) && 0 <= e
    requires !FailedSince(states[|steps|].log, key, 0) && Timely(states, key, v, d, e)
    ensures var s := states[|steps|];
            var visit := Visit(|states[v].trace|, states[v].now);
            WellPlaced(s.trace, visit) && Answered(c.maxEntries, s.trace, key, visit, d, e, s.now)
  {
    var n := |steps|;
    var s, visit := states[n], Visit(|states[v].trace|, states[v].now);
    TrailInv(c, steps, states, v);
    TrailGrows(c, steps, states, v, n);
    CallHasOutcome(c, steps, states, key, v, n);
    assert s.trace[..visit.pos] == states[v].trace;
    if Settled(c, states[v], key) {
      var f := states[v].flights[key];
      if FoundFresh(c.maxEntries, states[v].trace, key, f.pos, f.since) {
        FoundFreshPersists(c.maxEntries, states[v].trace, s.trace, key, f.pos, f.since);
      } else {
        FailedPersists(states[v].log, s.log, key, 0);
      }
    } else if FreshLater(c.maxEntries, s.trace, key, visit.at) {
      var p: nat, r: int :| visit.at <= r && FoundFresh(c.maxEntries, s.trace, key, p, r);
      assert visit.at - e <= r;
    }
  }

  /** The clock at each of the steps `vs`. */
  function TimesAt(states: seq<CacheBuilds.State>, vs: seq<nat>): seq<int>
    requires forall i :: 0 <= i < |vs| ==> vs[i] < |states|
  {
    seq(|vs|, i requires 0 <= i < |vs| => states[vs[i]].now)
  }

  /** The visits of the warmer, by step: calls of the key. */
  ghost predicate WarmCalls(steps: seq<CacheBuilds.Step>, states: seq<CacheBuilds.State>, key: string, vs: seq<nat>)
    requires |states| == |steps| + 1
  {
    vs != [] && (forall i :: 0 <= i < |vs| ==> vs[i] < |steps| && steps[vs[i]] == CacheBuilds.Call(key))
  }

  ghost predicate AllTimely(states: seq<CacheBuilds.State>, key: string, vs: seq<nat>, d: int, e: int)
    requires forall i :: 0 <= i < |vs| ==> vs[i] < |states|
  {
    forall i :: 0 <= i < |vs| ==> Timely(states, key, vs[i], d, e)
  }

  /**
   * In every interleaving of warm passes, requests, refreshes and stores of other keys: if the warmer calls for a key at
   * least every `g`, its calls are settled within `d` and flights leave within `e`, builds of it succeed and it is not
   * pushed out, then from its first store after the first call on a lookup of it never misses.
   */
  lemma WarmedRunNeverMisses(c: CacheBuilds.Config, steps: seq<CacheBuilds.Step>, states: seq<CacheBuilds.State>,
                             key: string, vs: seq<nat>, f: int, g: int, d: int, e: int, landing: nat)
    requires Trail(c, steps, states) && c.ttlOf(key) > 0 && 0 <= d && 0 <= e && WarmCalls(steps, states, key, vs)
    requires var ttl := c.ttlOf(key); f + d < ttl + StaleGrace(ttl) && g + d + e <= StaleGrace(ttl)
    requires CloseTogether(TimesAt(states, vs), f, g, states[|steps|].now) && AllTimely(states, key, vs, d, e)
    requires var s := states[|steps|];
             && !FailedSince(s.log, key, 0) && !PushedOut(s.trace, key, Capacity(c.maxEntries))
             && |states[vs[0]].trace| <= landing < |s.trace| && Stores(s.trace[landing]) && s.trace[landing].key == key
    ensures CacheBuilds.Find(c, states[|steps|], key).Hit?
  {
    var s := states[|steps|];
    TrailInv(c, steps, states, |steps|);
    var visits := seq(|vs|, i requires 0 <= i < |vs| => Visit(|states[vs[i]].trace|, states[vs[i]].now));
    assert Times(visits) == TimesAt(states, vs);
    forall i | 0 <= i < |vs|
      ensures WellPlaced(s.trace, visits[i]) && Answered(c.maxEntries, s.trace, key, visits[i], d, e, s.now)
    {
      CallIsAnswered(c, steps, states, key, vs[i], d, e);
    }
    WarmKeyNeverMisses(c.maxEntries, s.trace, key, c.ttlOf(key), visits, f, g, d, e, landing, s.now);
  }

  /**
   * With the default five-minute bundles, passes of up to two minutes, calls settled within the warmer's own build
   * timeout and flights that take at most 45 seconds to leave, a warmed bundle that is not pushed out is never missing,
   * in any interleaving, at any time up to the end of the pass that follows the last one.
   */
  lemma DefaultWarmerNeverMisses(c: CacheBuilds.Config, steps: seq<CacheBuilds.Step>, states: seq<CacheBuilds.State>,
                                 key: string, vs: seq<nat>, start: int, p: int, landing: nat)
    requires Trail(c, steps, states) && c.ttlOf(key) == 300 * SECOND && WarmCalls(steps, states, key, vs)
    requires 0 <= p <= 120 * SECOND && OnTicks(TimesAt(states, vs), start, Interval(300 * SECOND), p)
    requires states[|steps|].now <= start + |vs| * Interval(300 * SECOND) + p
    requires AllTimely(states, key, vs, WARM_TIMEOUT, 45 * SECOND)
    requires var s := states[|steps|];
             && !FailedSince(s.log, key, 0) && !PushedOut(s.trace, key, Capacity(c.maxEntries))
             && |states[vs[0]].trace| <= landing < |s.trace| && Stores(s.trace[landing]) && s.trace[landing].key == key
    ensures CacheBuilds.Find(c, states[|steps|], key).Hit?
  {
    var interval := Interval(300 * SECOND);
    TickedVisitsAreClose(TimesAt(states, vs), start, interval, p, states[|steps|].now);
    WarmedRunNeverMisses(c, steps, states, key, vs, interval + 2 * p, interval + p, WARM_TIMEOUT, 45 * SECOND, landing);
  }
}
