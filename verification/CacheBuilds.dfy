/**
 * Deduplicated rebuilds of cached responses (`buildAndCachePayload` in
 * internal/api/discovery_cache.go).
 *
 * A request that misses, a stale hit that schedules a refresh and a warm pass all reach the
 * same place: a `singleflight` call for the key.  `Call` may therefore happen at any time for
 * any key, which covers every interleaving of the three.  A key has at most one flight; a caller
 * that finds one shares its result.  The cache is the one after the trace of operations so far.
 */
module CacheBuilds {
  import opened ResponseCache

  /**
   * A flight first looks the key up again and builds if it is not fresh.  Once it has its result it is
   * leaving: callers can join it until it is gone.  `pos` is the length of the trace at the time `since`.
   */
  datatype Flight = Looking | Building | Leaving(since: int, pos: nat)

  datatype Result = Failed | Built(payload: string, cacheable: bool)

  /** `pos` is the length of the trace when the event happened. */
  datatype Event =
    | Started(key: string, at: int, pos: nat)
    | Ended(key: string, at: int, pos: nat, stored: bool)

  datatype Config = Config(maxEntries: int, ttlOf: string -> int)

  datatype State = State(now: int, trace: seq<Op>, flights: map<string, Flight>, log: seq<Event>)

  datatype Step =
    | Tick(to: int)
    | Serve(key: string)
    | Store(key: string, payload: string)
    | Call(key: string)
    | Recheck(key: string)
    | Finish(key: string, result: Result)
    | Leave(key: string)

  const INITIAL := State(0, [], map[], [])

  predicate Enabled(s: State, step: Step) {
    match step
    case Tick(to) => s.now <= to
    case Serve(_) => true
    case Store(_, _) => true
    case Call(_) => true
    case Recheck(key) => key in s.flights && s.flights[key].Looking?
    case Finish(key, _) => key in s.flights && s.flights[key].Building?
    case Leave(key) => key in s.flights && s.flights[key].Leaving?
  }

  ghost function Find(c: Config, s: State, key: string): Lookup {
    LookupSpec(RunOf(c.maxEntries, s.trace), key, s.now)
  }

  ghost predicate IsFresh(l: Lookup) {
    l.Hit? && l.isFresh
  }

  ghost function Apply(c: Config, s: State, step: Step): State
    requires Enabled(s, step)
  {
    match step
    case Tick(to) => s.(now := to)
    case Serve(key) => s.(trace := s.trace + [Get(key, s.now)])
    case Store(key, payload) => s.(trace := s.trace + [Set(key, payload, c.ttlOf(key), s.now)])
    case Call(key) => if key in s.flights then s else s.(flights := s.flights[key := Looking])
    case Recheck(key) =>
      var s' := s.(trace := s.trace + [Get(key, s.now)]);
      if IsFresh(Find(c, s, key)) then s'.(flights := s.flights[key := Leaving(s.now, |s.trace|)])
      else s'.(flights := s.flights[key := Building], log := s.log + [Started(key, s.now, |s.trace|)])
    case Finish(key, result) =>
      var stores := result.Built? && result.cacheable && c.ttlOf(key) > 0;
      var trace := if stores then s.trace + [Set(key, result.payload, c.ttlOf(key), s.now)] else s.trace;
      s.(flights := s.flights[key := Leaving(s.now, |trace|)], trace := trace,
         log := s.log + [Ended(key, s.now, |trace|, stores)])
    case Leave(key) => s.(flights := s.flights - {key})
  }

  /** The state after a list of steps, each of which was possible when it was taken. */
  ghost predicate IsRun(c: Config, steps: seq<Step>, s: State)
    decreases |steps|
  {
    if steps == [] then s == INITIAL
    else
      var step := steps[|steps| - 1];
      exists before :: IsRun(c, steps[..|steps| - 1], before) && Enabled(before, step) && s == Apply(c, before, step)
  }

  // ---------------------------------------------------------------- the invariant

  ghost predicate TraceInv(c: Config, s: State) {
    && Clocked(s.trace)
    && NotBefore(s.trace, s.now)
    && (forall i :: 0 <= i < |s.trace| && s.trace[i].Set? ==> s.trace[i].ttl == c.ttlOf(s.trace[i].key))
  }

  ghost predicate EventInv(c: Config, s: State, e: Event) {
    && e.pos <= |s.trace| && e.at <= s.now && NotBefore(s.trace[..e.pos], e.at)
    && (e.Started? ==> !IsFresh(LookupSpec(RunOf(c.maxEntries, s.trace[..e.pos]), e.key, e.at)))
    && (e.Ended? && e.stored ==>
         e.pos > 0 && Stores(s.trace[e.pos - 1]) && s.trace[e.pos - 1].key == e.key && s.trace[e.pos - 1].now == e.at)
  }

  /** Is the last event of `key` the start of a build? */
  predicate Open(log: seq<Event>, key: string) {
    if log == [] then false
    else if log[|log| - 1].key == key then log[|log| - 1].Started?
    else Open(log[..|log| - 1], key)
  }

  ghost predicate Ordered(log: seq<Event>) {
    forall i, j :: 0 <= i < j < |log| ==> log[i].at <= log[j].at && log[i].pos <= log[j].pos
  }

  /** Each start of a build of a key finds no build of that key open. */
  ghost predicate Bracketed(log: seq<Event>) {
    forall i :: 0 <= i < |log| ==> log[i].Started? == !Open(log[..i], log[i].key)
  }

  predicate Busy(s: State, key: string) {
    key in s.flights && s.flights[key].Building?
  }

  ghost predicate Inv(c: Config, s: State) {
    && TraceInv(c, s)
    && (forall i :: 0 <= i < |s.log| ==> EventInv(c, s, s.log[i]))
    && Ordered(s.log) && Bracketed(s.log)
    && (forall key :: Open(s.log, key) <==> Busy(s, key))
  }

  lemma EventInvExtends(c: Config, s: State, s': State, e: Event)
    requires EventInv(c, s, e) && s.trace <= s'.trace && s.now <= s'.now
    ensures EventInv(c, s', e)
  {
    assert s'.trace[..e.pos] == s.trace[..e.pos];
  }

  lemma TraceStep(c: Config, s: State, step: Step)
    requires TraceInv(c, s) && Enabled(s, step)
    ensures TraceInv(c, Apply(c, s, step))
    ensures s.trace <= Apply(c, s, step).trace && s.now <= Apply(c, s, step).now
  {
  }

  lemma OpenAppend(log: seq<Event>, e: Event, key: string)
    ensures Open(log + [e], key) == if e.key == key then e.Started? else Open(log, key)
  {
    assert (log + [e])[..|log|] == log;
  }

  /** Appending an event that starts or ends the build of its key keeps the log bracketed and ordered. */
  lemma LogAppend(c: Config, s: State, e: Event)
    requires Inv(c, s) && e.at == s.now && e.pos >= |s.trace| && e.Started? == !Open(s.log, e.key)
    ensures Ordered(s.log + [e]) && Bracketed(s.log + [e])
  {
    var log' := s.log + [e];
    forall i | 0 <= i < |log'| ensures log'[i].Started? == !Open(log'[..i], log'[i].key) {
      if i < |s.log| {
        assert log'[..i] == s.log[..i];
      } else {
        assert log'[..i] == s.log;
      }
    }
    assert forall i :: 0 <= i < |s.log| ==> EventInv(c, s, s.log[i]);
  }

  lemma InvQuiet(c: Config, s: State, s': State)
    requires Inv(c, s) && TraceInv(c, s') && s.trace <= s'.trace && s.now <= s'.now && s'.log == s.log
    requires forall key :: Busy(s', key) == Busy(s, key)
    ensures Inv(c, s')
  {
    forall i | 0 <= i < |s.log| ensures EventInv(c, s', s.log[i]) {
      EventInvExtends(c, s, s', s.log[i]);
    }
  }

  lemma InvLogged(c: Config, s: State, s': State, e: Event)
    requires Inv(c, s) && TraceInv(c, s') && s.trace <= s'.trace && s.now == s'.now && s'.log == s.log + [e]
    requires e.at == s.now && e.pos >= |s.trace| && e.Started? == !Busy(s, e.key) && EventInv(c, s', e)
    requires forall key :: Busy(s', key) == if key == e.key then e.Started? else Busy(s, key)
    ensures Inv(c, s')
  {
    LogAppend(c, s, e);
    forall i | 0 <= i < |s'.log| ensures EventInv(c, s', s'.log[i]) {
      if i < |s.log| {
        EventInvExtends(c, s, s', s.log[i]);
      }
    }
    forall key ensures Open(s'.log, key) == Busy(s', key) {
      OpenAppend(s.log, e, key);
    }
  }

  lemma InvStep(c: Config, s: State, step: Step)
    requires Inv(c, s) && Enabled(s, step)
    ensures Inv(c, Apply(c, s, step))
  {
    var s' := Apply(c, s, step);
    TraceStep(c, s, step);
    if s'.log == s.log {
      InvQuiet(c, s, s');
    } else {
      var e := s'.log[|s.log|];
      assert s'.trace[..e.pos] == if e.Started? then s.trace else s'.trace;
      InvLogged(c, s, s', e);
    }
  }

  lemma {:induction false} RunInv(c: Config, steps: seq<Step>, s: State)
    requires IsRun(c, steps, s)
    ensures Inv(c, s)
    decreases |steps|
  {
    if steps != [] {
      var step := steps[|steps| - 1];
      var before :| IsRun(c, steps[..|steps| - 1], before) && Enabled(before, step) && s == Apply(c, before, step);
      RunInv(c, steps[..|steps| - 1], before);
      InvStep(c, before, step);
    }
  }

  // ---------------------------------------------------------------- no stampede

  /** Builds of one key never overlap: between two starts of it the first one ended. */
  lemma BuildsDoNotOverlap(c: Config, steps: seq<Step>, s: State, i: nat, j: nat) returns (e: nat)
    requires IsRun(c, steps, s) && i < j < |s.log|
    requires s.log[i].Started? && s.log[j].Started? && s.log[i].key == s.log[j].key
    ensures i < e < j && s.log[e].Ended? && s.log[e].key == s.log[i].key
  {
    RunInv(c, steps, s);
    e := LastEventEnds(s.log[..j], i, s.log[i].key);
  }

  lemma {:induction false} LastEventEnds(log: seq<Event>, i: nat, key: string) returns (e: nat)
    requires i < |log| && log[i].Started? && log[i].key == key && !Open(log, key)
    ensures i < e < |log| && log[e].Ended? && log[e].key == key
    decreases |log|
  {
    if log[|log| - 1].key == key {
      e := |log| - 1;
    } else {
      e := LastEventEnds(log[..|log| - 1], i, key);
    }
  }

  lemma {:induction false} LastSetIsLast(ops: seq<Op>, key: string, i: nat)
    requires i < |ops| && Stores(ops[i]) && ops[i].key == key
    ensures LastSet(ops, key) >= i
    decreases |ops|
  {
    if i < |ops| - 1 {
      LastSetIsLast(ops[..|ops| - 1], key, i);
    }
  }

  /** No build of a key starts within its ttl of any earlier store of it, unless it was pushed out. */
  lemma NoEarlyRebuild(c: Config, steps: seq<Step>, s: State, i: nat, k: nat)
    requires IsRun(c, steps, s) && i < |s.log| && s.log[i].Started?
    requires k < s.log[i].pos <= |s.trace| && Stores(s.trace[k]) && s.trace[k].key == s.log[i].key
    requires !PushedOut(s.trace[..s.log[i].pos], s.log[i].key, Capacity(c.maxEntries))
    ensures s.log[i].at >= s.trace[k].now + c.ttlOf(s.trace[k].key)
  {
    RunInv(c, steps, s);
    var e := s.log[i];
    var ops := s.trace[..e.pos];
    assert EventInv(c, s, e);
    assert ops[k] == s.trace[k];
    assert forall m :: 0 <= m < |ops| ==> ops[m] == s.trace[m];
    NotFreshIsExpired(c.maxEntries, ops, e.key, e.at, k, c.ttlOf(e.key));
  }

  lemma NotFreshIsExpired(maxEntries: int, ops: seq<Op>, key: string, at: int, k: nat, ttl: int)
    requires Clocked(ops) && NotBefore(ops, at) && !IsFresh(LookupSpec(RunOf(maxEntries, ops), key, at))
    requires k < |ops| && Stores(ops[k]) && ops[k].key == key
    requires forall m :: 0 <= m < |ops| && Stores(ops[m]) && ops[m].key == key ==> ops[m].ttl == ttl
    requires !PushedOut(ops, key, Capacity(maxEntries))
    ensures at >= ops[k].now + ttl
  {
    LookupMatchesTrace(maxEntries, ops, key, at);
    LastSetIsLast(ops, key, k);
  }

  /** Starts of builds of one key, each store of which succeeded, are at least a ttl apart. */
  lemma StartsAreSpaced(c: Config, steps: seq<Step>, s: State, i: nat, j: nat)
    requires IsRun(c, steps, s) && i < j < |s.log|
    requires s.log[i].Started? && s.log[j].Started? && s.log[i].key == s.log[j].key
    requires forall e :: i < e < j && s.log[e].Ended? && s.log[e].key == s.log[i].key ==> s.log[e].stored
    requires s.log[j].pos <= |s.trace|
    requires !PushedOut(s.trace[..s.log[j].pos], s.log[j].key, Capacity(c.maxEntries))
    ensures s.log[j].at >= s.log[i].at + c.ttlOf(s.log[i].key)
  {
    RunInv(c, steps, s);
    var e := BuildsDoNotOverlap(c, steps, s, i, j);
    assert EventInv(c, s, s.log[e]);
    NoEarlyRebuild(c, steps, s, j, s.log[e].pos - 1);
  }

  /** The log indices of the starts of builds of `key`. */
  function StartsOf(log: seq<Event>, key: string): (r: seq<nat>)
    ensures forall i :: 0 <= i < |r| ==> r[i] < |log| && log[r[i]].Started? && log[r[i]].key == key
    ensures forall i, j :: 0 <= i < j < |r| ==> r[i] < r[j]
    ensures forall i :: 0 <= i < |log| && log[i].Started? && log[i].key == key ==> i in r
  {
    if log == [] then []
    else
      var rest := StartsOf(log[..|log| - 1], key);
      if log[|log| - 1].Started? && log[|log| - 1].key == key then rest + [|log| - 1] else rest
  }

  /** Builds of `key` succeed, and it is never pushed out. */
  ghost predicate Undisturbed(c: Config, s: State, key: string) {
    && (forall e :: 0 <= e < |s.log| && s.log[e].Ended? && s.log[e].key == key ==> s.log[e].stored)
    && (forall p :: 0 <= p <= |s.trace| ==> !PushedOut(s.trace[..p], key, Capacity(c.maxEntries)))
  }

  /**
   * Under any load, as long as builds of `key` succeed and it is not pushed out, its first n + 1
   * builds take at least n ttls.
   */
  lemma {:induction false} BuildRateBound(c: Config, steps: seq<Step>, s: State, key: string, n: nat)
    requires IsRun(c, steps, s) && Undisturbed(c, s, key)
    requires n < |StartsOf(s.log, key)|
    ensures var starts := StartsOf(s.log, key);
            s.log[starts[n]].at >= s.log[starts[0]].at + n * c.ttlOf(key)
  {
    if n > 0 {
      var starts := StartsOf(s.log, key);
      BuildRateBound(c, steps, s, key, n - 1);
      assert s.log[starts[n]].at >= s.log[starts[n - 1]].at + c.ttlOf(key) by {
        RunInv(c, steps, s);
        assert EventInv(c, s, s.log[starts[n]]);
        StartsAreSpaced(c, steps, s, starts[n - 1], starts[n]);
      }
      assert n * c.ttlOf(key) == (n - 1) * c.ttlOf(key) + c.ttlOf(key);
    }
  }

  // ---------------------------------------------------------------- what a build leaves behind

  /** A build that fails, or whose result is not to be cached, changes no answer for any key. */
  lemma UncacheableReplacesNothing(c: Config, s: State, key: string, result: Result, k: string)
    requires Enabled(s, Finish(key, result)) && (result.Failed? || !result.cacheable || c.ttlOf(key) <= 0)
    ensures Find(c, Apply(c, s, Finish(key, result)), k) == Find(c, s, k)
  {
  }

  /** Any other result is what the key is answered with from then on, fresh for its ttl. */
  lemma CacheableIsServed(c: Config, s: State, key: string, payload: string, now: int)
    requires Enabled(s, Finish(key, Built(payload, true))) && s.now <= now < s.now + c.ttlOf(key)
    ensures var s' := Apply(c, s, Finish(key, Built(payload, true)));
            LookupSpec(RunOf(c.maxEntries, s'.trace), key, now) == Hit(payload, true)
  {
    WrittenIsServed(c.maxEntries, s.trace, Set(key, payload, c.ttlOf(key), s.now), now);
  }

  lemma WrittenIsServed(maxEntries: int, ops: seq<Op>, op: Op, now: int)
    requires op.Set? && op.now <= now < op.now + op.ttl
    ensures LookupSpec(RunOf(maxEntries, ops + [op]), op.key, now) == Hit(op.payload, true)
  {
    assert (ops + [op])[..|ops|] == ops;
  }

  /** A flight that looks again builds exactly if the key is not fresh. */
  lemma RebuiltIff(c: Config, steps: seq<Step>, s: State, key: string)
    requires IsRun(c, steps, s) && key in s.flights && s.flights[key].Looking?
    ensures var s' := Apply(c, s, Recheck(key));
            && (Busy(s', key) <==> !(Find(c, s, key).Hit? && Find(c, s, key).isFresh))
            && (Busy(s', key) ==> s'.log == s.log + [Started(key, s.now, |s.trace|)])
            && (!Busy(s', key) ==> s'.log == s.log)
  {
    RunInv(c, steps, s);
  }

  lemma RunExtends(c: Config, steps: seq<Step>, s: State, step: Step)
    requires IsRun(c, steps, s) && Enabled(s, step)
    ensures IsRun(c, steps + [step], Apply(c, s, step))
  {
    var all := steps + [step];
    assert all[..|all| - 1] == steps && all[|all| - 1] == step;
    assert IsRun(c, all[..|all| - 1], s);
  }

  /** At any time a payload can be stored, and is then what the key is answered with. */
  lemma StoreIsOpen(c: Config, steps: seq<Step>, s: State, key: string, payload: string) returns (s': State)
    requires IsRun(c, steps, s) && c.ttlOf(key) > 0
    ensures IsRun(c, steps + [Store(key, payload)], s') && Find(c, s', key) == Hit(payload, true)
  {
    RunExtends(c, steps, s, Store(key, payload));
    s' := Apply(c, s, Store(key, payload));
    WrittenIsServed(c.maxEntries, s.trace, Set(key, payload, c.ttlOf(key), s.now), s.now);
  }

  /** At any time a key can be looked up, and a flight for it started or joined. */
  lemma CallIsOpen(c: Config, steps: seq<Step>, s: State, key: string) returns (served: State, called: State)
    requires IsRun(c, steps, s)
    ensures IsRun(c, steps + [Serve(key)], served) && served.trace == s.trace + [Get(key, s.now)]
    ensures IsRun(c, steps + [Call(key)], called) && key in called.flights
  {
    RunExtends(c, steps, s, Serve(key));
    RunExtends(c, steps, s, Call(key));
    served, called := Apply(c, s, Serve(key)), Apply(c, s, Call(key));
  }

  /** One build, from a call that finds nothing to its end. */
  lemma FirstBuild(c: Config, key: string, payload: string) returns (steps: seq<Step>, s: State)
    requires c.ttlOf(key) > 0
    ensures IsRun(c, steps, s) && s.now == 0 && s.flights == map[] && Find(c, s, key) == Hit(payload, true)
    ensures s.trace == [Get(key, 0), Set(key, payload, c.ttlOf(key), 0)]
    ensures s.log == [Started(key, 0, 0), Ended(key, 0, 2, true)]
  {
    steps, s := BuildStarts(c, key);
    var finish := Finish(key, Built(payload, true));
    CacheableIsServed(c, s, key, payload, 0);
    RunExtends(c, steps, s, finish);
    steps, s := steps + [finish], Apply(c, s, finish);
    RunExtends(c, steps, s, Leave(key));
    steps, s := steps + [Leave(key)], Apply(c, s, Leave(key));
    assert s.flights == map[];
  }

  lemma BuildStarts(c: Config, key: string) returns (steps: seq<Step>, s: State)
    ensures IsRun(c, steps, s) && s == State(0, [Get(key, 0)], map[key := Building], [Started(key, 0, 0)])
  {
    var called := State(0, [], map[key := Looking], []);
    RunExtends(c, [], INITIAL, Call(key));
    assert Apply(c, INITIAL, Call(key)) == called && [] + [Call(key)] == [Call(key)];
    RunExtends(c, [Call(key)], called, Recheck(key));
    assert Find(c, called, key) == Miss;
    steps, s := [Call(key)] + [Recheck(key)], Apply(c, called, Recheck(key));
  }

  /** The bound on the rate of builds is reached: a second build can start exactly a ttl after the first. */
  lemma RebuiltAfterTtl(c: Config, key: string, payload: string) returns (steps: seq<Step>, s: State)
    requires c.ttlOf(key) > 0
    ensures IsRun(c, steps, s) && |s.log| == 3
    ensures s.log[0] == Started(key, 0, 0) && s.log[2].Started? && s.log[2].key == key && s.log[2].at == c.ttlOf(key)
  {
    var ttl := c.ttlOf(key);
    var before, s1 := FirstBuild(c, key, payload);
    var s2 := Apply(c, s1, Tick(ttl));
    RunExtends(c, before, s1, Tick(ttl));
    var s3 := Apply(c, s2, Call(key));
    RunExtends(c, before + [Tick(ttl)], s2, Call(key));
    steps := before + [Tick(ttl)] + [Call(key)];
    HitMatchesTrace(c.maxEntries, s3.trace, key, ttl);
    assert LastSet(s3.trace, key) == 1;
    assert !IsFresh(Find(c, s3, key));
    RunExtends(c, steps, s3, Recheck(key));
    steps, s := steps + [Recheck(key)], Apply(c, s3, Recheck(key));
  }

  // ---------------------------------------------------------------- one flight, step by step

  /** The part of a built response `cacheablePublicPayload` looks at: list lengths by field name. */
  datatype Payload = NilPayload | Payload(degraded: bool, lists: map<string, nat>, bytes: string)

  function Encoding(p: Payload): string {
    if p.NilPayload? then "null" else p.bytes
  }

  const RANKED_KEYS := ["articles", "events", "notes", "profiles", "hashtags", "domains", "conversations"]

  ghost predicate WorthCaching(p: Payload) {
    p.Payload? && (p.degraded ==> forall key :: key in RANKED_KEYS && key in p.lists ==> p.lists[key] > 0)
  }

  /** A degraded response is kept only if no ranked list it has is empty. */
  method CacheablePublicPayload(p: Payload) returns (ok: bool)
    ensures ok == WorthCaching(p)
    ensures ok <==>
            && p != NilPayload
            && (p.degraded ==>
                 var ranked := ["articles", "events", "notes", "profiles", "hashtags", "domains", "conversations"];
                 forall key :: key in ranked && key in p.lists ==> p.lists[key] != 0)
  {
    if p.NilPayload? {
      return false;
    }
    if !p.degraded {
      return true;
    }
    var i := 0;
    while i < |RANKED_KEYS|
      invariant 0 <= i <= |RANKED_KEYS|
      invariant forall j :: 0 <= j < i && RANKED_KEYS[j] in p.lists ==> p.lists[RANKED_KEYS[j]] > 0
    {
      var key := RANKED_KEYS[i];
      if key in p.lists && p.lists[key] == 0 {
        assert key in RANKED_KEYS;
        return false;
      }
      i := i + 1;
    }
    return true;
  }

  datatype BuildResult = BuildFailed | BuildOk(payload: Payload)

  datatype Reply = ReplyError | ReplyBytes(bytes: string)

  /**
   * What the leader of a flight does: look again at `lookAt`, build, and store at `landAt`.
   * A fresh entry is returned as it is; a failed or empty degraded build replaces nothing.
   */
  method BuildAndCachePayload(cache: ResponseCache.Store, key: string, ttl: int, lookAt: int, built: BuildResult,
                              landAt: int)
    returns (reply: Reply)
    requires DistinctWrites(cache.entries, cache.seqNo)
    modifies cache
    ensures DistinctWrites(cache.entries, cache.seqNo)
    ensures var looked := GetSpec(old(cache.Value()), key, lookAt);
            var found := LookupSpec(old(cache.Value()), key, lookAt);
            if found.Hit? && found.isFresh then reply == ReplyBytes(found.payload) && cache.Value() == looked
            else if built.BuildFailed? then reply == ReplyError && cache.Value() == looked
            else
              var bytes := if built.payload.NilPayload? then "null" else built.payload.bytes;
              && reply == ReplyBytes(bytes)
              && cache.Value() == if ttl > 0 && WorthCaching(built.payload) then SetSpec(looked, key, bytes, ttl, landAt)
                                  else looked
  {
    var payload, isFresh, ok := cache.Get(key, lookAt);
    if ok && isFresh {
      return ReplyBytes(payload);
    }
    if built.BuildFailed? {
      return ReplyError;
    }
    var cacheable := CacheablePublicPayload(built.payload);
    if ttl > 0 && cacheable {
      cache.Set(key, Encoding(built.payload), ttl, landAt);
    }
    return ReplyBytes(Encoding(built.payload));
  }
}
