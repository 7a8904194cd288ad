/**
 * The shared public-stats snapshot (internal/api/handlers_discovery_stats.go): one memo of the
 * snapshot, and fills that render it into four cache entries.
 *
 * `render` stands for the payload builders; a fill is a flight per hashtag limit, and
 * fills of different limits interleave.
 */
module SharedStats {
  import opened Common
  import opened ResponseCache
  import opened CacheKey
  import opened Sorting

  type Stats = string

  // ---------------------------------------------------------------- keys

  function Itoa(n: nat): (s: ByteString)
    ensures s != ""
  {
    var digit := ('0' as int + n % 10) as char;
    if n < 10 then [digit] else Itoa(n / 10) + [digit]
  }

  function Atoi(s: string): int {
    if s == "" then 0 else Atoi(s[..|s| - 1]) * 10 + (s[|s| - 1] as int - '0' as int)
  }

  lemma {:induction false} ItoaRoundTrip(n: nat)
    ensures Atoi(Itoa(n)) == n
  {
    var s := Itoa(n);
    if n < 10 {
      assert s[..0] == "";
    } else {
      ItoaRoundTrip(n / 10);
      assert s[..|s| - 1] == Itoa(n / 10);
    }
  }

  datatype StatsKey = Network(limit: nat) | Content(limit: nat) | Relay(day: bool)

  function Endpoint(k: StatsKey): string {
    match k
    case Network(_) => "network_stats"
    case Content(_) => "content_stats"
    case Relay(_) => "relay_stats"
  }

  function Params(k: StatsKey): map<string, ByteString> {
    match k
    case Network(limit) => map["hashtag_limit" := Itoa(limit)]
    case Content(limit) => map["hashtag_limit" := Itoa(limit)]
    case Relay(day) => map["window" := if day then "24h" else "7d"]
  }

  ghost function KeyOf(k: StatsKey): string {
    PolicyKey("stats", Endpoint(k), Params(k))
  }

  lemma StatsKeysAreWellNamed(k: StatsKey)
    ensures WellNamed("stats", Endpoint(k), Params(k))
  {
  }

  lemma KeyOfInjective(k: StatsKey, k': StatsKey)
    requires KeyOf(k) == KeyOf(k')
    ensures k == k'
  {
    StatsKeysAreWellNamed(k);
    StatsKeysAreWellNamed(k');
    PolicyKeyInjective("stats", Endpoint(k), Params(k), "stats", Endpoint(k'), Params(k'));
    QuestionInjective(k, k');
  }

  lemma QuestionInjective(k: StatsKey, k': StatsKey)
    requires Endpoint(k) == Endpoint(k') && Params(k) == Params(k')
    ensures k == k'
  {
    assert Endpoint(k)[0] == Endpoint(k')[0];
    if k.Relay? {
      assert |Params(k)["window"]| == |Params(k')["window"]|;
    } else {
      ItoaRoundTrip(k.limit);
      ItoaRoundTrip(k'.limit);
      assert Params(k)["hashtag_limit"] == Params(k')["hashtag_limit"];
    }
  }

  /** The four entries of a fill, in the order they are stored. */
  function Slot(limit: nat, i: nat): StatsKey
    requires i < 4
  {
    if i == 0 then Network(limit) else if i == 1 then Content(limit) else Relay(i == 2)
  }

  // ---------------------------------------------------------------- an undisturbed fill

  /** Stores of `keys` one after the other, each with its own clock reading. */
  function Batch(keys: seq<string>, payloads: seq<string>, ttl: int, times: seq<int>): seq<Op>
    requires |keys| == |payloads| == |times|
  {
    seq(|keys|, i requires 0 <= i < |keys| => Set(keys[i], payloads[i], ttl, times[i]))
  }

  /** The readings of a forward clock from `start` to `end`. */
  ghost predicate Between(start: int, times: seq<int>, end: int) {
    && start <= end
    && (forall i :: 0 <= i < |times| ==> start <= times[i] <= end)
    && (forall i, j :: 0 <= i < j < |times| ==> times[i] <= times[j])
  }

  lemma {:induction false} BatchTrace(ops: seq<Op>, keys: seq<string>, payloads: seq<string>, ttl: int, times: seq<int>,
                                      i: nat)
    requires |keys| == |payloads| == |times| && Distinct(keys) && ttl > 0 && i < |keys|
    ensures var run := ops + Batch(keys, payloads, ttl, times);
            && LastSet(run, keys[i]) == |ops| + i
            && OthersSince(run, keys[i]) == Elements(keys[i + 1..])
    decreases |keys|
  {
    var n := |keys| - 1;
    var run := ops + Batch(keys, payloads, ttl, times);
    assert run[..|run| - 1] == ops + Batch(keys[..n], payloads[..n], ttl, times[..n]);
    if i < n {
      BatchTrace(ops, keys[..n], payloads[..n], ttl, times[..n], i);
      assert keys[i + 1..] == keys[..n][i + 1..] + [keys[n]];
    }
  }

  lemma {:induction false} DistinctCount(keys: seq<string>)
    requires Distinct(keys)
    ensures |Elements(keys)| == |keys|
  {
    if keys != [] {
      var front, last := keys[..|keys| - 1], keys[|keys| - 1];
      DistinctCount(front);
      assert Elements(keys) == Elements(front) + {last};
    } else {
      assert Elements(keys) == {};
    }
  }

  /** After storing `keys`, the i-th is served exactly while its window is open, if the rest fit beside it. */
  lemma BatchServedIff(maxEntries: int, ops: seq<Op>, keys: seq<string>, payloads: seq<string>, ttl: int,
                       times: seq<int>,
                       start: int, now: int, i: nat)
    requires Clocked(ops) && NotBefore(ops, start) && Between(start, times, now)
    requires |keys| == |payloads| == |times| && Distinct(keys) && ttl > 0 && i < |keys|
    ensures var found := LookupSpec(RunOf(maxEntries, ops + Batch(keys, payloads, ttl, times)), keys[i], now);
            found == if |keys| - i <= Capacity(maxEntries) && now < times[i] + ttl + StaleGrace(ttl)
                     then Hit(payloads[i], now < times[i] + ttl) else Miss
  {
    var run := ops + Batch(keys, payloads, ttl, times);
    BatchIsClocked(ops, keys, payloads, ttl, times, start, now);
    BatchExpected(ops, keys, payloads, ttl, times, now, i);
    LookupMatchesTrace(maxEntries, run, keys[i], now);
    if now < times[i] + ttl + StaleGrace(ttl) {
      BatchIsLive(ops, keys, payloads, ttl, times, start, now, i);
      ServedWhileOthersLive(maxEntries, run, keys[i], now);
    }
  }

  lemma BatchExpected(ops: seq<Op>, keys: seq<string>, payloads: seq<string>, ttl: int, times: seq<int>, now: int,
                      i: nat)
    requires |keys| == |payloads| == |times| && Distinct(keys) && ttl > 0 && i < |keys|
    ensures var run := ops + Batch(keys, payloads, ttl, times);
            && |OthersSince(run, keys[i])| == |keys| - i - 1
            && Expected(run, keys[i], now) ==
               if now < times[i] + ttl + StaleGrace(ttl) then Hit(payloads[i], now < times[i] + ttl) else Miss
  {
    BatchTrace(ops, keys, payloads, ttl, times, i);
    DistinctCount(keys[i + 1..]);
  }

  lemma BatchIsClocked(ops: seq<Op>, keys: seq<string>, payloads: seq<string>, ttl: int, times: seq<int>, start: int,
                       now: int)
    requires Clocked(ops) && NotBefore(ops, start) && Between(start, times, now) && |keys| == |payloads| == |times|
    ensures Clocked(ops + Batch(keys, payloads, ttl, times)) && NotBefore(ops + Batch(keys, payloads, ttl, times), now)
  {
  }

  /** While the i-th is servable, so are the later ones. */
  lemma BatchIsLive(ops: seq<Op>, keys: seq<string>, payloads: seq<string>, ttl: int, times: seq<int>, start: int,
                    now: int, i: nat)
    requires |keys| == |payloads| == |times| && Distinct(keys) && ttl > 0 && i < |keys|
    requires Between(start, times, now) && now < times[i] + ttl + StaleGrace(ttl)
    ensures var run := ops + Batch(keys, payloads, ttl, times);
            forall k :: k in OthersSince(run, keys[i]) ==> !Lapsed(run, k, now)
  {
    var run := ops + Batch(keys, payloads, ttl, times);
    BatchTrace(ops, keys, payloads, ttl, times, i);
    forall k | k in OthersSince(run, keys[i]) ensures !Lapsed(run, k, now) {
      var j :| 0 <= j < |keys[i + 1..]| && keys[i + 1..][j] == k;
      BatchTrace(ops, keys, payloads, ttl, times, i + 1 + j);
    }
  }

  ghost function FillKeys(limit: nat): seq<string> {
    seq(4, i requires 0 <= i < 4 => KeyOf(Slot(limit, i)))
  }

  function FillPayloads(render: (StatsKey, Stats) -> string, stats: Stats, limit: nat): seq<string> {
    seq(4, i requires 0 <= i < 4 => render(Slot(limit, i), stats))
  }

  lemma FillKeysDistinct(limit: nat)
    ensures Distinct(FillKeys(limit))
  {
    var keys := FillKeys(limit);
    forall i, j | 0 <= i < j < 4 ensures keys[i] != keys[j] {
      if keys[i] == keys[j] {
        KeyOfInjective(Slot(limit, i), Slot(limit, j));
      }
    }
  }

  ghost function FillOps(render: (StatsKey, Stats) -> string, stats: Stats, limit: nat, ttl: int,
                         times: seq<int>): seq<Op>
    requires |times| == 4
  {
    Batch(FillKeys(limit), FillPayloads(render, stats, limit), ttl, times)
  }

  /**
   * After an undisturbed fill the i-th entry renders the snapshot while its window is open, if the cache holds
   * the 4 - i entries from it on; so all four are there exactly when the cache holds four and the first is still open.
   */
  lemma FillLeavesAllIff(maxEntries: int, ops: seq<Op>, render: (StatsKey, Stats) -> string, stats: Stats, limit: nat,
                         ttl: int, times: seq<int>, start: int, now: int)
    requires Clocked(ops) && NotBefore(ops, start) && |times| == 4 && Between(start, times, now) && ttl > 0
    ensures var c := RunOf(maxEntries, ops + FillOps(render, stats, limit, ttl, times));
            && (forall i :: 0 <= i < 4 ==>
                 LookupSpec(c, FillKeys(limit)[i], now) ==
                 if 4 - i <= Capacity(maxEntries) && now < times[i] + ttl + StaleGrace(ttl)
                 then Hit(render(Slot(limit, i), stats), now < times[i] + ttl) else Miss)
            && ((forall i :: 0 <= i < 4 ==> LookupSpec(c, FillKeys(limit)[i], now).Hit?) <==>
                 Capacity(maxEntries) >= 4 && now < times[0] + ttl + StaleGrace(ttl))
  {
    var keys, payloads := FillKeys(limit), FillPayloads(render, stats, limit);
    FillKeysDistinct(limit);
    var c := RunOf(maxEntries, ops + FillOps(render, stats, limit, ttl, times));
    forall i | 0 <= i < 4
      ensures LookupSpec(c, keys[i], now) ==
              if 4 - i <= Capacity(maxEntries) && now < times[i] + ttl + StaleGrace(ttl)
              then Hit(payloads[i], now < times[i] + ttl) else Miss
    {
      BatchServedIff(maxEntries, ops, keys, payloads, ttl, times, start, now, i);
    }
    assert LookupSpec(c, keys[0], now).Hit? <==> Capacity(maxEntries) >= 4 && now < times[0] + ttl + StaleGrace(ttl);
  }

  /** The keys are built from the endpoint, and the hashtag limit or the window. */
  lemma QuestionsAre(limit: nat)
    ensures Endpoint(Network(limit)) == "network_stats" && Params(Network(limit)) == map["hashtag_limit" := Itoa(limit)]
    ensures Endpoint(Content(limit)) == "content_stats" && Params(Content(limit)) == map["hashtag_limit" := Itoa(limit)]
    ensures Endpoint(Relay(true)) == "relay_stats" && Params(Relay(true)) == map["window" := "24h"]
    ensures Endpoint(Relay(false)) == "relay_stats" && Params(Relay(false)) == map["window" := "7d"]
  {
  }

  /** How much room each answer needs after a fill: the network answer is stored first and pushed out first. */
  lemma RoomForEach(maxEntries: int, ops: seq<Op>, render: (StatsKey, Stats) -> string, stats: Stats, limit: nat,
                    ttl: int, start: int, now: int, k: StatsKey)
    requires Clocked(ops) && NotBefore(ops, start) && start <= now && ttl > 0
    requires k in {Network(limit), Content(limit), Relay(true), Relay(false)}
    ensures var c := RunOf(maxEntries, ops + FillOps(render, stats, limit, ttl, [start, start, start, start]));
            var room := if maxEntries <= 0 then 256 else maxEntries;
            var needed := match k case Network(_) => 4 case Content(_) => 3 case Relay(day) => if day then 2 else 1;
            LookupSpec(c, KeyOf(k), now) ==
            if needed <= room && now < start + ttl + (if ttl < 300_000_000_000 then ttl else 300_000_000_000)
            then Hit(render(k, stats), now < start + ttl) else Miss
  {
    var i := match k case Network(_) => 0 case Content(_) => 1 case Relay(day) => if day then 2 else 3;
    assert Slot(limit, i) == k;
    FilledAt(maxEntries, ops, render, stats, limit, ttl, [start, start, start, start], start, now, i);
  }

  lemma FilledAt(maxEntries: int, ops: seq<Op>, render: (StatsKey, Stats) -> string, stats: Stats, limit: nat,
                 ttl: int, times: seq<int>, start: int, now: int, i: nat)
    requires Clocked(ops) && NotBefore(ops, start) && |times| == 4 && Between(start, times, now) && ttl > 0 && i < 4
    ensures LookupSpec(RunOf(maxEntries, ops + FillOps(render, stats, limit, ttl, times)), KeyOf(Slot(limit, i)), now) ==
            if 4 - i <= Capacity(maxEntries) && now < times[i] + ttl + StaleGrace(ttl)
            then Hit(render(Slot(limit, i), stats), now < times[i] + ttl) else Miss
  {
    FillLeavesAllIff(maxEntries, ops, render, stats, limit, ttl, times, start, now);
    assert FillKeys(limit)[i] == KeyOf(Slot(limit, i));
  }

  // ---------------------------------------------------------------- interleaved fills

  datatype Memo = NoMemo | Memo(stats: Stats, at: int)

  /** A fill obtains a snapshot stored `at`, at time `got`, and then writes its entries one by one. */
  datatype Fill = Loading | Storing(stats: Stats, at: int, got: int, done: nat)

  /** Which snapshot a store rendered. */
  datatype Source = NoSource | From(stats: Stats, at: int)

  /** `slack` bounds how long a fill takes from obtaining its snapshot to its last store; 0 is an atomic fill. */
  datatype Config = Config(maxEntries: int, ttl: int, slack: int, render: (StatsKey, Stats) -> string)

  /**
   * `torn` holds the limits whose last fill failed between its first and second store, with the snapshot it
   * rendered, and `broken` those whose last fill failed anywhere between its first and last.
   */
  datatype State = State(now: int, trace: seq<Op>, sources: seq<Source>, memo: Memo, fills: map<nat, Fill>,
                         torn: map<nat, Source>, broken: set<nat>)

  datatype Step =
    | Tick(to: int)
    | Other(op: Op)
    | StartFill(limit: nat)
    | UseMemo(limit: nat)
    | ShareLoad(limit: nat)
    | Load(limit: nat, stats: Stats)
    | LoadFails(limit: nat)
    | StoreNext(limit: nat)
    | StoreFails(limit: nat)

  const INITIAL := State(0, [], [], NoMemo, map[], map[], {})

  ghost predicate IsStatsKey(key: string) {
    exists k :: KeyOf(k) == key
  }

  ghost predicate Enabled(c: Config, s: State, step: Step) {
    match step
    case Tick(to) => s.now <= to
    case Other(op) => op.now == s.now && (op.Set? ==> !IsStatsKey(op.key))
    case StartFill(limit) => limit !in s.fills
    case UseMemo(limit) => limit in s.fills && s.fills[limit].Loading? && s.memo.Memo? && s.now < s.memo.at + c.ttl
    case ShareLoad(limit) => limit in s.fills && s.fills[limit].Loading? && s.memo.Memo?
    case Load(limit, _) => limit in s.fills && s.fills[limit].Loading?
    case LoadFails(limit) => limit in s.fills && s.fills[limit].Loading?
    case StoreNext(limit) =>
      limit in s.fills && s.fills[limit].Storing? && s.fills[limit].done < 4 && s.now - s.fills[limit].got <= c.slack
    case StoreFails(limit) => limit in s.fills && s.fills[limit].Storing?
  }

  ghost function Apply(c: Config, s: State, step: Step): State
    requires Enabled(c, s, step)
  {
    match step
    case Tick(to) => s.(now := to)
    case Other(op) => s.(trace := s.trace + [op], sources := s.sources + [NoSource])
    case StartFill(limit) => s.(fills := s.fills[limit := Loading])
    case UseMemo(limit) => s.(fills := s.fills[limit := Storing(s.memo.stats, s.memo.at, s.now, 0)])
    case ShareLoad(limit) => s.(fills := s.fills[limit := Storing(s.memo.stats, s.memo.at, s.memo.at, 0)])
    case Load(limit, stats) =>
      s.(memo := Memo(stats, s.now), fills := s.fills[limit := Storing(stats, s.now, s.now, 0)])
    case LoadFails(limit) => s.(fills := s.fills - {limit})
    case StoreNext(limit) =>
      var f := s.fills[limit];
      var k := Slot(limit, f.done);
      s.(trace := s.trace + [Set(KeyOf(k), c.render(k, f.stats), c.ttl, s.now)],
         sources := s.sources + [From(f.stats, f.at)],
         fills := if f.done == 3 then s.fills - {limit} else s.fills[limit := f.(done := f.done + 1)],
         torn := if f.done == 1 then s.torn - {limit} else s.torn,
         broken := if f.done == 3 then s.broken - {limit} else s.broken)
    case StoreFails(limit) =>
      var f := s.fills[limit];
      s.(fills := s.fills - {limit},
         torn := if f.done == 1 then s.torn[limit := From(f.stats, f.at)] else s.torn,
         broken := if f.done > 0 then s.broken + {limit} else s.broken)
  }

  ghost predicate IsRun(c: Config, steps: seq<Step>, s: State)
    decreases |steps|
  {
    if steps == [] then s == INITIAL
    else
      var step := steps[|steps| - 1];
      exists before :: IsRun(c, steps[..|steps| - 1], before) && Enabled(c, before, step) && s == Apply(c, before, step)
  }

  /** A stored stats payload renders the snapshot it names, which was then less than a ttl and the slack old. */
  ghost predicate Sourced(c: Config, op: Op, src: Source) {
    && (op.Set? && IsStatsKey(op.key) ==> src.From?)
    && (src.From? ==> op.Set? && op.ttl == c.ttl && op.now - src.at < c.ttl + c.slack &&
                      exists k :: KeyOf(k) == op.key && op.payload == c.render(k, src.stats))
  }

  ghost predicate BaseInv(c: Config, s: State) {
    && Clocked(s.trace) && NotBefore(s.trace, s.now)
    && |s.sources| == |s.trace|
    && (forall i :: 0 <= i < |s.trace| ==> Sourced(c, s.trace[i], s.sources[i]))
    && (forall l :: l in s.fills && s.fills[l].Storing? ==> s.fills[l].got - s.fills[l].at < c.ttl && s.fills[l].done < 4)
  }

  /** The fill of `l` has stored its network entry but not yet its content entry. */
  predicate HalfWay(s: State, l: nat) {
    l in s.fills && s.fills[l].Storing? && s.fills[l].done == 1
  }

  /** The snapshot behind the last store of `key`, if there is one. */
  ghost function SourceOf(s: State, key: string): Source
    requires |s.sources| == |s.trace|
  {
    if LastSet(s.trace, key) < 0 then NoSource else s.sources[LastSet(s.trace, key)]
  }

  ghost predicate PairInv(s: State, l: nat, network: string, content: string)
    requires |s.sources| == |s.trace|
  {
    if HalfWay(s, l) then SourceOf(s, network) == From(s.fills[l].stats, s.fills[l].at)
    else if l in s.torn then SourceOf(s, network) == s.torn[l]
    else SourceOf(s, network) == SourceOf(s, content)
  }

  /** Appending one sourced operation keeps the trace part of the invariant. */
  lemma BaseAppend(c: Config, s: State, s': State, op: Op, src: Source)
    requires BaseInv(c, s) && Sourced(c, op, src) && op.now == s.now == s'.now
    requires s'.trace == s.trace + [op] && s'.sources == s.sources + [src]
    requires forall l :: l in s'.fills && s'.fills[l].Storing? ==>
               s'.fills[l].got - s'.fills[l].at < c.ttl && s'.fills[l].done < 4
    ensures BaseInv(c, s')
  {
  }

  lemma BaseStored(c: Config, s: State, limit: nat)
    requires BaseInv(c, s) && Enabled(c, s, StoreNext(limit)) && c.ttl > 0 && c.slack >= 0
    ensures BaseInv(c, Apply(c, s, StoreNext(limit)))
  {
    var f := s.fills[limit];
    var k := Slot(limit, f.done);
    var op := Set(KeyOf(k), c.render(k, f.stats), c.ttl, s.now);
    assert Sourced(c, op, From(f.stats, f.at));
    BaseAppend(c, s, Apply(c, s, StoreNext(limit)), op, From(f.stats, f.at));
  }

  lemma BaseStep(c: Config, s: State, step: Step)
    requires BaseInv(c, s) && Enabled(c, s, step) && c.ttl > 0 && c.slack >= 0
    ensures BaseInv(c, Apply(c, s, step))
  {
    match step
    case Other(op) => BaseAppend(c, s, Apply(c, s, step), op, NoSource);
    case StoreNext(limit) => BaseStored(c, s, limit);
    case _ => BaseQuiet(c, s, step);
  }

  lemma BaseQuiet(c: Config, s: State, step: Step)
    requires BaseInv(c, s) && Enabled(c, s, step) && c.ttl > 0 && !step.StoreNext? && !step.Other?
    ensures BaseInv(c, Apply(c, s, step))
  {
    var s' := Apply(c, s, step);
    assert s'.trace == s.trace && s'.sources == s.sources;
  }

  /** A store of `key` gives it a new source and leaves every other key its own. */
  lemma SourceStored(s: State, s': State, op: Op, src: Source, key: string)
    requires |s.sources| == |s.trace| && s'.trace == s.trace + [op] && s'.sources == s.sources + [src]
    ensures SourceOf(s', key) == if Stores(op) && op.key == key then src else SourceOf(s, key)
  {
    if Stores(op) {
      TraceStored(s.trace, op, key);
    } else {
      TraceUnchanged(s.trace, op, key);
    }
  }

  lemma PairUnaffected(s: State, s': State, op: Op, l: nat, network: string, content: string)
    requires |s.sources| == |s.trace| && PairInv(s, l, network, content)
    requires s'.trace == s.trace + [op] && s'.sources == s.sources + [NoSource] && s'.fills == s.fills
    requires s'.torn == s.torn
    requires op.Set? ==> op.key != network && op.key != content
    ensures PairInv(s', l, network, content)
  {
    SourceStored(s, s', op, NoSource, network);
    SourceStored(s, s', op, NoSource, content);
  }

  lemma PairStored(s: State, s': State, op: Op, limit: nat, l: nat, network: string, content: string)
    requires |s.sources| == |s.trace| && PairInv(s, l, network, content) && network != content
    requires limit in s.fills && s.fills[limit].Storing? && Stores(op)
    requires var f := s.fills[limit];
             && s'.trace == s.trace + [op] && s'.sources == s.sources + [From(f.stats, f.at)]
             && s'.fills == (if f.done == 3 then s.fills - {limit} else s.fills[limit := f.(done := f.done + 1)])
             && s'.torn == (if f.done == 1 then s.torn - {limit} else s.torn)
             && (op.key == network <==> limit == l && f.done == 0)
             && (op.key == content <==> limit == l && f.done == 1)
    ensures PairInv(s', l, network, content)
  {
    var f := s.fills[limit];
    SourceStored(s, s', op, From(f.stats, f.at), network);
    SourceStored(s, s', op, From(f.stats, f.at), content);
  }

  lemma PairQuiet(c: Config, s: State, step: Step, l: nat, network: string, content: string)
    requires |s.sources| == |s.trace| && Enabled(c, s, step) && !step.StoreNext? && !step.Other?
    requires PairInv(s, l, network, content)
    ensures Apply(c, s, step).sources == s.sources && Apply(c, s, step).trace == s.trace
    ensures PairInv(Apply(c, s, step), l, network, content)
  {
    var s' := Apply(c, s, step);
    assert HalfWay(s', l) ==> HalfWay(s, l) && s'.fills[l] == s.fills[l];
    assert HalfWay(s, l) && !HalfWay(s', l) ==> l in s'.torn && s'.torn[l] == From(s.fills[l].stats, s.fills[l].at);
    assert l in s.torn && !HalfWay(s, l) ==> l in s'.torn && s'.torn[l] == s.torn[l];
  }

  lemma SlotKeys(limit: nat, done: nat, l: nat)
    requires done < 4
    ensures KeyOf(Slot(limit, done)) == KeyOf(Network(l)) <==> limit == l && done == 0
    ensures KeyOf(Slot(limit, done)) == KeyOf(Content(l)) <==> limit == l && done == 1
  {
    if KeyOf(Slot(limit, done)) == KeyOf(Network(l)) {
      KeyOfInjective(Slot(limit, done), Network(l));
    }
    if KeyOf(Slot(limit, done)) == KeyOf(Content(l)) {
      KeyOfInjective(Slot(limit, done), Content(l));
    }
  }

  lemma PairStep(c: Config, s: State, step: Step, l: nat)
    requires BaseInv(c, s) && Enabled(c, s, step) && c.ttl > 0 && PairInv(s, l, KeyOf(Network(l)), KeyOf(Content(l)))
    ensures var s' := Apply(c, s, step);
            |s'.sources| == |s'.trace| && PairInv(s', l, KeyOf(Network(l)), KeyOf(Content(l)))
  {
    var s', network, content := Apply(c, s, step), KeyOf(Network(l)), KeyOf(Content(l));
    match step
    case StoreNext(limit) =>
      SlotKeys(limit, s.fills[limit].done, l);
      OtherSlot(Network(l), Content(l));
      PairStored(s, s', s'.trace[|s.trace|], limit, l, network, content);
    case Other(op) =>
      PairUnaffected(s, s', op, l, network, content);
    case _ =>
      PairQuiet(c, s, step, l, network, content);
  }

  lemma OtherSlot(k: StatsKey, k': StatsKey)
    requires k != k'
    ensures KeyOf(k) != KeyOf(k')
  {
    if KeyOf(k) == KeyOf(k') {
      KeyOfInjective(k, k');
    }
  }

  lemma {:induction false} RunInv(c: Config, steps: seq<Step>, s: State)
    requires IsRun(c, steps, s) && c.ttl > 0 && c.slack >= 0
    ensures BaseInv(c, s)
    decreases |steps|
  {
    if steps != [] {
      var step := steps[|steps| - 1];
      var before :| IsRun(c, steps[..|steps| - 1], before) && Enabled(c, before, step) && s == Apply(c, before, step);
      RunInv(c, steps[..|steps| - 1], before);
      BaseStep(c, before, step);
    }
  }

  lemma {:induction false} RunPairInv(c: Config, steps: seq<Step>, s: State, l: nat)
    requires IsRun(c, steps, s) && c.ttl > 0 && c.slack >= 0
    ensures |s.sources| == |s.trace| && PairInv(s, l, KeyOf(Network(l)), KeyOf(Content(l)))
    decreases |steps|
  {
    if steps != [] {
      var front, step := steps[..|steps| - 1], steps[|steps| - 1];
      var before :| IsRun(c, front, before) && Enabled(c, before, step) && s == Apply(c, before, step);
      RunInv(c, front, before);
      RunPairInv(c, front, before, l);
      PairStep(c, before, step, l);
    }
  }

  /** What a request for `k` finds in the cache. */
  ghost function Served(c: Config, s: State, k: StatsKey): Lookup {
    LookupSpec(RunOf(c.maxEntries, s.trace), KeyOf(k), s.now)
  }

  /** The store a served payload comes from, and the snapshot that store rendered. */
  lemma ServedFrom(c: Config, steps: seq<Step>, s: State, k: StatsKey) returns (i: nat)
    requires IsRun(c, steps, s) && c.ttl > 0 && c.slack >= 0 && Served(c, s, k).Hit?
    ensures i < |s.trace| == |s.sources| && i == LastSet(s.trace, KeyOf(k)) && s.sources[i].From?
    ensures Served(c, s, k).payload == c.render(k, s.sources[i].stats)
    ensures s.now - s.trace[i].now < c.ttl + StaleGrace(c.ttl) && s.trace[i].now - s.sources[i].at < c.ttl + c.slack
  {
    RunInv(c, steps, s);
    LookupMatchesTrace(c.maxEntries, s.trace, KeyOf(k), s.now);
    i := LastSet(s.trace, KeyOf(k));
    assert Sourced(c, s.trace[i], s.sources[i]) && IsStatsKey(s.trace[i].key);
    var k' :| KeyOf(k') == s.trace[i].key && s.trace[i].payload == c.render(k', s.sources[i].stats);
    KeyOfInjective(k, k');
  }

  /**
   * Every stats payload served renders one snapshot stored less than two ttls, the grace window and the
   * slack earlier: two ttls and the grace window when fills are atomic.
   */
  lemma ServedSnapshotAge(c: Config, steps: seq<Step>, s: State, k: StatsKey)
    requires IsRun(c, steps, s) && c.ttl > 0 && c.slack >= 0 && Served(c, s, k).Hit?
    ensures exists stats, at :: From(stats, at) in s.sources && Served(c, s, k).payload == c.render(k, stats) &&
                                s.now - at < 2 * c.ttl + StaleGrace(c.ttl) + c.slack
  {
    var i := ServedFrom(c, steps, s, k);
    assert From(s.sources[i].stats, s.sources[i].at) in s.sources;
  }

  // ---------------------------------------------------------------- agreement of the endpoints

  /** The answers for `k` and `k'` render one snapshot. */
  ghost predicate Agree(c: Config, s: State, k: StatsKey, k': StatsKey)
    requires Served(c, s, k).Hit? && Served(c, s, k').Hit?
  {
    exists stats :: Served(c, s, k).payload == c.render(k, stats) && Served(c, s, k').payload == c.render(k', stats)
  }

  /** Payloads show every difference between snapshots. */
  ghost predicate Telling(c: Config) {
    forall k, a, b :: c.render(k, a) == c.render(k, b) ==> a == b
  }

  /** Answers agree exactly if the stores they come from rendered one snapshot. */
  lemma AgreeIff(c: Config, steps: seq<Step>, s: State, k: StatsKey, k': StatsKey) returns (i: nat, i': nat)
    requires IsRun(c, steps, s) && c.ttl > 0 && c.slack >= 0 && Served(c, s, k).Hit? && Served(c, s, k').Hit?
    ensures i == LastSet(s.trace, KeyOf(k)) && i' == LastSet(s.trace, KeyOf(k'))
    ensures i < |s.sources| && i' < |s.sources| && s.sources[i].From? && s.sources[i'].From?
    ensures s.sources[i].stats == s.sources[i'].stats ==> Agree(c, s, k, k')
    ensures Telling(c) ==> (Agree(c, s, k, k') <==> s.sources[i].stats == s.sources[i'].stats)
  {
    i := ServedFrom(c, steps, s, k);
    i' := ServedFrom(c, steps, s, k');
  }

  /** The snapshot of the newest network entry, when it was stored by a fill that has not reached the content entry. */
  function Ahead(s: State, l: nat): Source {
    if HalfWay(s, l) then From(s.fills[l].stats, s.fills[l].at) else if l in s.torn then s.torn[l] else NoSource
  }

  /**
   * However fills of all limits interleave, network and content answers of one limit agree if no fill of it is, or
   * failed, half way.  If one is, they agree exactly if the content entry renders that fill's snapshot as well.
   */
  lemma NetworkAndContentAgreeIff(c: Config, steps: seq<Step>, s: State, l: nat)
    requires IsRun(c, steps, s) && c.ttl > 0 && c.slack >= 0
    requires Served(c, s, Network(l)).Hit? && Served(c, s, Content(l)).Hit?
    ensures Ahead(s, l).NoSource? ==> Agree(c, s, Network(l), Content(l))
    ensures Telling(c) && Ahead(s, l).From? ==>
              var j := LastSet(s.trace, KeyOf(Content(l)));
              && 0 <= j < |s.sources| && s.sources[j].From?
              && (Agree(c, s, Network(l), Content(l)) <==> s.sources[j].stats == Ahead(s, l).stats)
  {
    var i, j := AgreeIff(c, steps, s, Network(l), Content(l));
    RunPairInv(c, steps, s, l);
  }

  ghost predicate Reachable(c: Config, s: State) {
    exists steps :: IsRun(c, steps, s)
  }

  lemma StartIsReachable(c: Config)
    ensures Reachable(c, INITIAL)
  {
    assert IsRun(c, [], INITIAL);
  }

  lemma ReachableStep(c: Config, s: State, step: Step)
    requires Reachable(c, s) && Enabled(c, s, step)
    ensures Reachable(c, Apply(c, s, step))
  {
    var steps :| IsRun(c, steps, s);
    var longer := steps + [step];
    assert longer[..|longer| - 1] == steps && longer[|longer| - 1] == step;
    assert IsRun(c, longer, Apply(c, s, step));
  }

  /** A fill that finds no usable memo and loads `stats`. */
  lemma FillStarts(c: Config, s: State, l: nat, stats: Stats) returns (s': State)
    requires Reachable(c, s) && l !in s.fills
    ensures Reachable(c, s')
    ensures s' == s.(memo := Memo(stats, s.now), fills := s.fills[l := Storing(stats, s.now, s.now, 0)])
  {
    ReachableStep(c, s, StartFill(l));
    var loading := Apply(c, s, StartFill(l));
    ReachableStep(c, loading, Load(l, stats));
    s' := Apply(c, loading, Load(l, stats));
    assert s.fills[l := Loading][l := Storing(stats, s.now, s.now, 0)] == s.fills[l := Storing(stats, s.now, s.now, 0)];
  }

  function AllAt(now: int): seq<int> {
    [now, now, now, now]
  }

  lemma SliceHead<T>(a: seq<T>, i: nat)
    requires i < |a|
    ensures a[i..] == [a[i]] + a[i + 1..]
  {
  }

  /** A fill at one instant stores one more entry. */
  lemma FillStores(c: Config, s: State, l: nat) returns (s': State)
    requires Reachable(c, s) && l in s.fills && s.fills[l].Storing? && s.fills[l].got == s.now && s.fills[l].done < 4
    requires c.slack >= 0 && |s.sources| == |s.trace|
    ensures Reachable(c, s') && s'.now == s.now && |s'.sources| == |s'.trace|
    ensures var f := s.fills[l];
            && s'.trace == s.trace + [FillOps(c.render, f.stats, l, c.ttl, AllAt(s.now))[f.done]]
            && s'.fills == (if f.done == 3 then s.fills - {l} else s.fills[l := f.(done := f.done + 1)])
            && (f.done == 3 ==> l !in s'.broken)
  {
    ReachableStep(c, s, StoreNext(l));
    s' := Apply(c, s, StoreNext(l));
  }

  lemma {:induction false} FillEnds(c: Config, s: State, l: nat, batch: seq<Op>) returns (s': State)
    requires Reachable(c, s) && l in s.fills && s.fills[l].Storing? && s.fills[l].got == s.now && s.fills[l].done < 4
    requires c.slack >= 0 && |s.sources| == |s.trace|
    requires |batch| == 4 && batch == FillOps(c.render, s.fills[l].stats, l, c.ttl, AllAt(s.now))
    ensures Reachable(c, s') && s'.now == s.now && s'.fills == s.fills - {l} && |s'.sources| == |s'.trace|
    ensures s'.trace == s.trace + batch[s.fills[l].done..]
    ensures l !in s'.broken
    decreases 4 - s.fills[l].done
  {
    var done := s.fills[l].done;
    var next := FillStores(c, s, l);
    SliceHead(batch, done);
    s' := next;
    if done < 3 {
      s' := FillEnds(c, next, l, batch);
      assert next.fills - {l} == s.fills - {l};
    }
  }

  /**
   * A fill of `l` with snapshot `a` at the start, and a ttl later, when the memo has expired, a fill that loads `b`.
   */
  lemma SecondFillStarts(c: Config, l: nat, l': nat, a: Stats, b: Stats) returns (s: State)
    requires c.ttl > 0 && c.slack >= 0
    ensures Reachable(c, s) && s.now == c.ttl && |s.sources| == |s.trace| && l !in s.broken
    ensures s.trace == FillOps(c.render, a, l, c.ttl, AllAt(0)) && s.fills == map[l' := Storing(b, c.ttl, c.ttl, 0)]
  {
    StartIsReachable(c);
    var s1 := FillStarts(c, INITIAL, l, a);
    var s2 := FillEnds(c, s1, l, FillOps(c.render, a, l, c.ttl, AllAt(0)));
    ReachableStep(c, s2, Tick(c.ttl));
    s := FillStarts(c, s2.(now := c.ttl), l', b);
  }

  /** A fill at one instant stores its first `n` entries. */
  lemma {:induction false} FillAdvances(c: Config, s: State, l: nat, batch: seq<Op>, n: nat) returns (s': State)
    requires Reachable(c, s) && l in s.fills && s.fills[l].Storing? && s.fills[l].got == s.now && s.fills[l].done == 0
    requires c.slack >= 0 && |s.sources| == |s.trace| && n < 4
    requires |batch| == 4 && batch == FillOps(c.render, s.fills[l].stats, l, c.ttl, AllAt(s.now))
    ensures Reachable(c, s') && s'.now == s.now && |s'.sources| == |s'.trace|
    ensures s'.trace == s.trace + batch[..n] && l in s'.fills && s'.fills[l] == s.fills[l].(done := n)
    decreases n
  {
    if n == 0 {
      s' := s;
    } else {
      var before := FillAdvances(c, s, l, batch, n - 1);
      s' := FillStores(c, before, l);
      TakeOneMore(s.trace, batch, n - 1);
    }
  }

  lemma TakeOneMore<T>(a: seq<T>, b: seq<T>, i: nat)
    requires i < |b|
    ensures a + b[..i + 1] == a + b[..i] + [b[i]]
  {
  }

  lemma FillIsClocked(render: (StatsKey, Stats) -> string, stats: Stats, l: nat, ttl: int, start: int, now: int)
    requires start <= now
    ensures Clocked(FillOps(render, stats, l, ttl, AllAt(start)))
    ensures NotBefore(FillOps(render, stats, l, ttl, AllAt(start)), now)
  {
    var fill := FillOps(render, stats, l, ttl, AllAt(start));
    assert forall i :: 0 <= i < |fill| ==> fill[i].now == start;
  }

  lemma ClockedAppend(ops: seq<Op>, op: Op)
    requires Clocked(ops) && NotBefore(ops, op.now)
    ensures Clocked(ops + [op]) && NotBefore(ops + [op], op.now)
  {
    assert forall i :: 0 <= i < |ops| ==> (ops + [op])[i] == ops[i];
  }

  lemma {:induction false} OthersAmong(ops: seq<Op>, key: string, S: set<string>)
    requires forall i :: 0 <= i < |ops| ==> ops[i].key in S
    ensures OthersSince(ops, key) <= S - {key}
  {
    if ops != [] {
      OthersAmong(ops[..|ops| - 1], key, S);
    }
  }

  /** Four keys stored, and the first `done` of them stored again. */
  ghost function Overwrite(keys: seq<string>, first: seq<string>, second: seq<string>, ttl: int, times: seq<int>,
                           times': seq<int>, done: nat): seq<Op>
    requires |keys| == |first| == |second| == |times| == |times'| == 4 && done <= 4
  {
    Batch(keys, first, ttl, times) + Batch(keys, second, ttl, times')[..done]
  }

  lemma OverwriteCrowd(keys: seq<string>, first: seq<string>, second: seq<string>, ttl: int, times: seq<int>,
                       times': seq<int>, done: nat, i: nat)
    requires |keys| == |first| == |second| == |times| == |times'| == 4 && Distinct(keys) && done <= 4 && i < 4
    ensures |OthersSince(Overwrite(keys, first, second, ttl, times, times', done), keys[i])| <= 3
  {
    var run := Overwrite(keys, first, second, ttl, times, times', done);
    assert forall j :: 0 <= j < |run| ==> run[j].key == keys[if j < 4 then j else j - 4];
    DistinctCount(keys);
    OthersAmong(run, keys[i], Elements(keys));
    SubsetCount(OthersSince(run, keys[i]), Elements(keys) - {keys[i]});
  }

  lemma OverwriteLast(keys: seq<string>, first: seq<string>, second: seq<string>, ttl: int, times: seq<int>,
                      times': seq<int>, done: nat, i: nat)
    requires |keys| == |first| == |second| == |times| == |times'| == 4 && Distinct(keys) && ttl > 0 && done <= 4
    requires i < 4
    ensures LastSet(Overwrite(keys, first, second, ttl, times, times', done), keys[i]) == if i < done then 4 + i else i
  {
    var a, b := Batch(keys, first, ttl, times), Batch(keys, second, ttl, times')[..done];
    if i < done {
      StoredAgain(a, keys, second, ttl, times', done, i);
    } else {
      BatchTrace([], keys, first, ttl, times, i);
      assert [] + a == a;
      forall j | 0 <= j < |b| ensures b[j].key != keys[i] {
        assert b[j].key == keys[j];
      }
      OthersAfter(a, b, keys[i]);
    }
  }

  lemma StoredAgain(ops: seq<Op>, keys: seq<string>, payloads: seq<string>, ttl: int, times: seq<int>, done: nat,
                    i: nat)
    requires |keys| == |payloads| == |times| && Distinct(keys) && ttl > 0 && i < done <= |keys|
    ensures LastSet(ops + Batch(keys, payloads, ttl, times)[..done], keys[i]) == |ops| + i
  {
    assert Batch(keys, payloads, ttl, times)[..done] == Batch(keys[..done], payloads[..done], ttl, times[..done]);
    BatchTrace(ops, keys[..done], payloads[..done], ttl, times[..done], i);
  }

  lemma OverwriteExpected(keys: seq<string>, first: seq<string>, second: seq<string>, ttl: int, done: nat, i: nat)
    requires |keys| == |first| == |second| == 4 && Distinct(keys) && ttl > 0 && done <= 4 && i < 4
    ensures Expected(Overwrite(keys, first, second, ttl, AllAt(0), AllAt(ttl), done), keys[i], ttl) ==
            if i < done then Hit(second[i], true) else Hit(first[i], false)
  {
    var run := Overwrite(keys, first, second, ttl, AllAt(0), AllAt(ttl), done);
    OverwriteLast(keys, first, second, ttl, AllAt(0), AllAt(ttl), done, i);
    if i < done {
      assert run[4 + i] == Set(keys[i], second[i], ttl, ttl);
    } else {
      assert run[i] == Set(keys[i], first[i], ttl, 0);
    }
  }

  lemma OverwriteAnswer(maxEntries: int, keys: seq<string>, first: seq<string>, second: seq<string>, ttl: int,
                        done: nat, i: nat)
    requires |keys| == |first| == |second| == 4 && Distinct(keys) && ttl > 0 && done <= 4 && i < 4
    requires Capacity(maxEntries) >= 4
    requires var run := Overwrite(keys, first, second, ttl, AllAt(0), AllAt(ttl), done);
             Clocked(run) && NotBefore(run, ttl)
    ensures LookupSpec(RunOf(maxEntries, Overwrite(keys, first, second, ttl, AllAt(0), AllAt(ttl), done)), keys[i], ttl) ==
            if i < done then Hit(second[i], true) else Hit(first[i], false)
  {
    OverwriteCrowd(keys, first, second, ttl, AllAt(0), AllAt(ttl), done, i);
    OverwriteExpected(keys, first, second, ttl, done, i);
    LookupMatchesTrace(maxEntries, Overwrite(keys, first, second, ttl, AllAt(0), AllAt(ttl), done), keys[i], ttl);
  }

  /** The trace of a complete fill with `a`, and a ttl later the first `done` stores of one with `b`. */
  ghost function PartialTrace(c: Config, l: nat, a: Stats, b: Stats, done: nat): seq<Op>
    requires done <= 4
  {
    FillOps(c.render, a, l, c.ttl, AllAt(0)) + FillOps(c.render, b, l, c.ttl, AllAt(c.ttl))[..done]
  }

  lemma PartialIsClocked(c: Config, l: nat, a: Stats, b: Stats, done: nat)
    requires c.ttl > 0 && done <= 4
    ensures Clocked(PartialTrace(c, l, a, b, done)) && NotBefore(PartialTrace(c, l, a, b, done), c.ttl)
  {
    TwoFillsClocked(c, l, l, a, b);
    var whole, part := TwoFills(c, l, l, a, b), PartialTrace(c, l, a, b, done);
    assert part == whole[..4 + done];
    assert forall i :: 0 <= i < |whole| ==> whole[i].now <= c.ttl;
  }

  lemma PartialAnswer(c: Config, l: nat, a: Stats, b: Stats, done: nat, i: nat)
    requires c.ttl > 0 && Capacity(c.maxEntries) >= 4 && done <= 4 && i < 4
    ensures LookupSpec(RunOf(c.maxEntries, PartialTrace(c, l, a, b, done)), FillKeys(l)[i], c.ttl) ==
            if i < done then Hit(c.render(Slot(l, i), b), true) else Hit(c.render(Slot(l, i), a), false)
  {
    FillKeysDistinct(l);
    PartialIsClocked(c, l, a, b, done);
    OverwriteAnswer(c.maxEntries, FillKeys(l), FillPayloads(c.render, a, l), FillPayloads(c.render, b, l), c.ttl, done, i);
  }

  /**
   * The promise fails inside a fill, at work or failed: for every limit, any two snapshots and any place of the fill
   * there is a run in which the endpoints the fill has stored show the second snapshot and the others still the first.
   */
  lemma PartialFillDisagrees(c: Config, l: nat, a: Stats, b: Stats, done: nat, failed: bool) returns (s: State)
    requires c.ttl > 0 && c.slack >= 0 && Capacity(c.maxEntries) >= 4 && 0 < done < 4
    ensures Reachable(c, s) && (if failed then l !in s.fills && l in s.broken else Progress(s, l) == done)
    ensures forall i :: 0 <= i < 4 ==>
              Served(c, s, Slot(l, i)) ==
              if i < done then Hit(c.render(Slot(l, i), b), true) else Hit(c.render(Slot(l, i), a), false)
    ensures Telling(c) && a != b ==>
              forall i, j :: 0 <= i < done <= j < 4 ==> !Agree(c, s, Slot(l, i), Slot(l, j))
    ensures done == 1 ==> Ahead(s, l).From?
  {
    var s1 := SecondFillStarts(c, l, l, a, b);
    s := FillAdvances(c, s1, l, FillOps(c.render, b, l, c.ttl, AllAt(c.ttl)), done);
    assert s.trace == PartialTrace(c, l, a, b, done);
    if failed {
      ReachableStep(c, s, StoreFails(l));
      s := Apply(c, s, StoreFails(l));
    }
    forall i | 0 <= i < 4
      ensures Served(c, s, Slot(l, i)) ==
              if i < done then Hit(c.render(Slot(l, i), b), true) else Hit(c.render(Slot(l, i), a), false)
    {
      PartialAnswer(c, l, a, b, done, i);
    }
  }

  // ---------------------------------------------------------------- relay answers

  /** All fills of the run are for hashtag limit `l`. */
  ghost predicate OneLimit(steps: seq<Step>, l: nat) {
    forall i :: 0 <= i < |steps| && steps[i].StartFill? ==> steps[i].limit == l
  }

  /** How many entries the fill of `l` at work has stored. */
  function Progress(s: State, l: nat): nat {
    if l in s.fills && s.fills[l].Storing? then s.fills[l].done else 0
  }

  /** The entries a fill has stored render its snapshot; between complete fills all four render one. */
  ghost predicate FourInv(s: State, l: nat, keys: seq<string>)
    requires |s.sources| == |s.trace|
  {
    if Progress(s, l) > 0
    then forall i :: 0 <= i < |keys| && i < Progress(s, l) ==> SourceOf(s, keys[i]) == From(s.fills[l].stats, s.fills[l].at)
    else l in s.broken || forall i, j :: 0 <= i < j < |keys| ==> SourceOf(s, keys[i]) == SourceOf(s, keys[j])
  }

  lemma FourStored(s: State, s': State, l: nat, keys: seq<string>, op: Op)
    requires |s.sources| == |s.trace| && FourInv(s, l, keys) && Distinct(keys) && |keys| == 4
    requires l in s.fills && s.fills[l].Storing? && s.fills[l].done < 4 && Stores(op) && op.key == keys[s.fills[l].done]
    requires var f := s.fills[l];
             && s'.trace == s.trace + [op] && s'.sources == s.sources + [From(f.stats, f.at)]
             && s'.fills == if f.done == 3 then s.fills - {l} else s.fills[l := f.(done := f.done + 1)]
    ensures FourInv(s', l, keys)
  {
    var f := s.fills[l];
    forall i | 0 <= i < 4
      ensures SourceOf(s', keys[i]) == if i == f.done then From(f.stats, f.at) else SourceOf(s, keys[i])
    {
      SourceStored(s, s', op, From(f.stats, f.at), keys[i]);
    }
  }

  lemma FourUnaffected(s: State, s': State, l: nat, keys: seq<string>, op: Op, src: Source)
    requires |s.sources| == |s.trace| && FourInv(s, l, keys)
    requires s'.trace == s.trace + [op] && s'.sources == s.sources + [src] && s'.fills == s.fills
    requires s'.broken == s.broken
    requires op.Set? ==> op.key !in keys
    ensures FourInv(s', l, keys)
  {
    forall i | 0 <= i < |keys| ensures SourceOf(s', keys[i]) == SourceOf(s, keys[i]) {
      SourceStored(s, s', op, src, keys[i]);
    }
  }

  lemma FourQuiet(c: Config, s: State, step: Step, l: nat, keys: seq<string>)
    requires |s.sources| == |s.trace| && Enabled(c, s, step) && FourInv(s, l, keys) && !step.StoreNext? && !step.Other?
    ensures Apply(c, s, step).sources == s.sources && Apply(c, s, step).trace == s.trace
    ensures FourInv(Apply(c, s, step), l, keys)
  {
    var s' := Apply(c, s, step);
    assert s'.trace == s.trace && s'.sources == s.sources;
    assert Progress(s', l) > 0 ==> s'.fills[l] == s.fills[l];
    assert Progress(s, l) > 0 && Progress(s', l) == 0 ==> l in s'.broken;
    assert l in s.broken ==> l in s'.broken;
  }

  lemma FourStep(c: Config, s: State, step: Step, l: nat)
    requires BaseInv(c, s) && FourInv(s, l, FillKeys(l)) && Enabled(c, s, step) && c.ttl > 0 && s.fills.Keys <= {l}
    ensures |Apply(c, s, step).sources| == |Apply(c, s, step).trace| && FourInv(Apply(c, s, step), l, FillKeys(l))
  {
    var s', keys := Apply(c, s, step), FillKeys(l);
    match step
    case StoreNext(_) =>
      FillKeysDistinct(l);
      FourStored(s, s', l, keys, s'.trace[|s.trace|]);
    case Other(op) =>
      assert forall i :: 0 <= i < 4 ==> IsStatsKey(keys[i]);
      FourUnaffected(s, s', l, keys, op, NoSource);
    case _ =>
      FourQuiet(c, s, step, l, keys);
  }

  lemma {:induction false} OneLimitInv(c: Config, steps: seq<Step>, s: State, l: nat)
    requires IsRun(c, steps, s) && OneLimit(steps, l) && c.ttl > 0 && c.slack >= 0
    ensures BaseInv(c, s) && FourInv(s, l, FillKeys(l)) && s.fills.Keys <= {l}
    decreases |steps|
  {
    if steps != [] {
      var front, step := steps[..|steps| - 1], steps[|steps| - 1];
      var before :| IsRun(c, front, before) && Enabled(c, before, step) && s == Apply(c, before, step);
      OneLimitInv(c, front, before, l);
      BaseStep(c, before, step);
      FourStep(c, before, step, l);
      OneFill(c, before, step, l);
    }
  }

  lemma OneFill(c: Config, s: State, step: Step, l: nat)
    requires Enabled(c, s, step) && s.fills.Keys <= {l} && (step.StartFill? ==> step.limit == l)
    ensures Apply(c, s, step).fills.Keys <= {l}
  {
  }

  /**
   * As long as everyone asks for one hashtag limit, all four answers agree whenever no fill is between its first
   * and last store and the last fill did not fail there.
   */
  lemma OneLimitAgrees(c: Config, steps: seq<Step>, s: State, l: nat, i: nat, j: nat)
    requires IsRun(c, steps, s) && OneLimit(steps, l) && c.ttl > 0 && c.slack >= 0 && i < 4 && j < 4
    requires Progress(s, l) == 0 && l !in s.broken
    requires Served(c, s, Slot(l, i)).Hit? && Served(c, s, Slot(l, j)).Hit?
    ensures Agree(c, s, Slot(l, i), Slot(l, j))
  {
    OneLimitInv(c, steps, s, l);
    var p, q := AgreeIff(c, steps, s, Slot(l, i), Slot(l, j));
    assert s.sources[p] == SourceOf(s, FillKeys(l)[i]) && s.sources[q] == SourceOf(s, FillKeys(l)[j]);
  }

  /**
   * While a fill of the one limit is at work, what it has stored agrees with the rest exactly if that is its snapshot
   * too.
   */
  lemma PartialFillAgreesIff(c: Config, steps: seq<Step>, s: State, l: nat, i: nat, j: nat)
    requires IsRun(c, steps, s) && OneLimit(steps, l) && c.ttl > 0 && c.slack >= 0 && i < Progress(s, l) && i < 4
    requires j < 4
    requires Served(c, s, Slot(l, i)).Hit? && Served(c, s, Slot(l, j)).Hit?
    ensures j < Progress(s, l) ==> Agree(c, s, Slot(l, i), Slot(l, j))
    ensures Telling(c) ==>
              var q := LastSet(s.trace, KeyOf(Slot(l, j)));
              && 0 <= q < |s.sources| && s.sources[q].From?
              && (Agree(c, s, Slot(l, i), Slot(l, j)) <==> s.sources[q].stats == s.fills[l].stats)
  {
    OneLimitInv(c, steps, s, l);
    var p, q := AgreeIff(c, steps, s, Slot(l, i), Slot(l, j));
    assert s.sources[p] == SourceOf(s, FillKeys(l)[i]) && s.sources[q] == SourceOf(s, FillKeys(l)[j]);
  }

  lemma {:induction false} OthersAfter(ops: seq<Op>, more: seq<Op>, key: string)
    requires forall i :: 0 <= i < |more| ==> more[i].key != key
    ensures LastSet(ops + more, key) == LastSet(ops, key)
    ensures OthersSince(ops + more, key) <= OthersSince(ops, key) + (set i | 0 <= i < |more| :: more[i].key)
    decreases |more|
  {
    if more == [] {
      assert ops + more == ops;
    } else {
      var n := |more| - 1;
      OthersAfter(ops, more[..n], key);
      assert (ops + more)[..|ops + more| - 1] == ops + more[..n];
      assert more[n].key in set i | 0 <= i < |more| :: more[i].key;
      assert forall i :: 0 <= i < n ==> more[..n][i].key in set i | 0 <= i < |more| :: more[i].key;
    }
  }

  lemma AtMostFive(S: set<string>, a: string, b: string, c: string, d: string, e: string)
    requires S <= {a, b, c, d, e}
    ensures |S| <= 5
  {
    SubsetCount(S, {a, b, c, d, e});
    assert |{a} + {b} + {c} + {d} + {e}| <= 5;
    assert {a, b, c, d, e} == {a} + {b} + {c} + {d} + {e};
  }

  /** The trace of a complete fill of `l` with `a`, and a ttl later one of `l'` with `b`. */
  ghost function TwoFills(c: Config, l: nat, l': nat, a: Stats, b: Stats): seq<Op> {
    FillOps(c.render, a, l, c.ttl, AllAt(0)) + FillOps(c.render, b, l', c.ttl, AllAt(c.ttl))
  }

  /** Two batches of four that share their last two keys. */
  lemma TwoBatches(keys: seq<string>, keys': seq<string>, first: seq<Op>, second: seq<Op>)
    requires |keys| == |keys'| == |second| == 4 && keys[2..] == keys'[2..] && keys[0] !in keys'
    requires forall i :: 0 <= i < 4 ==> second[i].key == keys'[i]
    requires LastSet(first, keys[0]) == 0 && OthersSince(first, keys[0]) == Elements(keys[1..])
    ensures LastSet(first + second, keys[0]) == 0 && |OthersSince(first + second, keys[0])| <= 5
  {
    OthersAfter(first, second, keys[0]);
    assert keys[2..][0] == keys[2] && keys[2..][1] == keys[3] && keys'[2..][0] == keys'[2] && keys'[2..][1] == keys'[3];
    AtMostFive(OthersSince(first + second, keys[0]), keys[1], keys[2], keys[3], keys'[0], keys'[1]);
  }

  /** Fills of different limits share their relay keys only. */
  lemma SharedKeys(l: nat, l': nat)
    requires l != l'
    ensures FillKeys(l)[2..] == FillKeys(l')[2..] && FillKeys(l)[0] !in FillKeys(l')
  {
    forall i | 0 <= i < 4 ensures FillKeys(l')[i] != FillKeys(l)[0] {
      OtherSlot(Slot(l', i), Network(l));
    }
  }

  lemma FirstOfBatch(keys: seq<string>, payloads: seq<string>, ttl: int, times: seq<int>)
    requires |keys| == |payloads| == |times| == 4 && Distinct(keys) && ttl > 0
    ensures var fill := Batch(keys, payloads, ttl, times);
            LastSet(fill, keys[0]) == 0 && OthersSince(fill, keys[0]) == Elements(keys[1..])
  {
    BatchTrace([], keys, payloads, ttl, times, 0);
    assert [] + Batch(keys, payloads, ttl, times) == Batch(keys, payloads, ttl, times);
  }

  lemma TwoFillsNetwork(c: Config, l: nat, l': nat, a: Stats, b: Stats)
    requires c.ttl > 0 && l != l'
    ensures var run, network := TwoFills(c, l, l', a, b), FillKeys(l)[0];
            LastSet(run, network) == 0 && |OthersSince(run, network)| <= 5
  {
    var first, second := FillOps(c.render, a, l, c.ttl, AllAt(0)), FillOps(c.render, b, l', c.ttl, AllAt(c.ttl));
    FillKeysDistinct(l);
    FirstOfBatch(FillKeys(l), FillPayloads(c.render, a, l), c.ttl, AllAt(0));
    SharedKeys(l, l');
    TwoBatches(FillKeys(l), FillKeys(l'), first, second);
  }

  lemma TwoFillsClocked(c: Config, l: nat, l': nat, a: Stats, b: Stats)
    requires c.ttl > 0
    ensures Clocked(FillOps(c.render, a, l, c.ttl, AllAt(0)))
    ensures NotBefore(FillOps(c.render, a, l, c.ttl, AllAt(0)), c.ttl)
    ensures Clocked(TwoFills(c, l, l', a, b)) && NotBefore(TwoFills(c, l, l', a, b), c.ttl)
  {
    var first := FillOps(c.render, a, l, c.ttl, AllAt(0));
    FillIsClocked(c.render, a, l, c.ttl, 0, c.ttl);
    BatchIsClocked(first, FillKeys(l'), FillPayloads(c.render, b, l'), c.ttl, AllAt(c.ttl), c.ttl, c.ttl);
  }

  lemma TwoFillsNetworkAnswer(c: Config, l: nat, l': nat, a: Stats, b: Stats)
    requires c.ttl > 0 && l != l' && Capacity(c.maxEntries) >= 6
    ensures LookupSpec(RunOf(c.maxEntries, TwoFills(c, l, l', a, b)), FillKeys(l)[0], c.ttl) ==
            Hit(c.render(Network(l), a), false)
  {
    var run := TwoFills(c, l, l', a, b);
    TwoFillsClocked(c, l, l', a, b);
    TwoFillsNetwork(c, l, l', a, b);
    assert run[0] == Set(FillKeys(l)[0], c.render(Network(l), a), c.ttl, 0);
    LookupMatchesTrace(c.maxEntries, run, FillKeys(l)[0], c.ttl);
  }

  lemma TwoFillsRelayAnswer(c: Config, l: nat, l': nat, a: Stats, b: Stats, i: nat)
    requires c.ttl > 0 && Capacity(c.maxEntries) >= 6 && i < 4
    ensures LookupSpec(RunOf(c.maxEntries, TwoFills(c, l, l', a, b)), FillKeys(l')[i], c.ttl) ==
            Hit(c.render(Slot(l', i), b), true)
  {
    TwoFillsClocked(c, l, l', a, b);
    FillLeavesAllIff(c.maxEntries, FillOps(c.render, a, l, c.ttl, AllAt(0)), c.render, b, l', c.ttl, AllAt(c.ttl),
                     c.ttl, c.ttl);
  }

  lemma TwoFillsAnswers(c: Config, l: nat, l': nat, a: Stats, b: Stats, day: bool)
    requires c.ttl > 0 && l != l' && Capacity(c.maxEntries) >= 6
    ensures var cache := RunOf(c.maxEntries, TwoFills(c, l, l', a, b));
            && LookupSpec(cache, KeyOf(Network(l)), c.ttl) == Hit(c.render(Network(l), a), false)
            && LookupSpec(cache, KeyOf(Relay(day)), c.ttl) == Hit(c.render(Relay(day), b), true)
  {
    TwoFillsNetworkAnswer(c, l, l', a, b);
    var i := if day then 2 else 3;
    TwoFillsRelayAnswer(c, l, l', a, b, i);
    assert FillKeys(l)[0] == KeyOf(Network(l)) && FillKeys(l')[i] == KeyOf(Relay(day)) && Slot(l', i) == Relay(day);
  }

  /**
   * With a second limit in use the relay entries, which fills of all limits share, run ahead: after complete fills of
   * both limits the network answer of one renders the first snapshot and the relay answers the second.
   */
  lemma TwoLimitsDisagree(c: Config, l: nat, l': nat, a: Stats, b: Stats, day: bool) returns (s: State)
    requires c.ttl > 0 && c.slack >= 0 && l != l' && Capacity(c.maxEntries) >= 6
    ensures Reachable(c, s) && s.fills == map[]
    ensures Served(c, s, Network(l)) == Hit(c.render(Network(l), a), false)
    ensures Served(c, s, Relay(day)) == Hit(c.render(Relay(day), b), true)
    ensures Telling(c) && a != b ==> !Agree(c, s, Network(l), Relay(day))
  {
    var s1 := SecondFillStarts(c, l, l', a, b);
    s := FillEnds(c, s1, l', FillOps(c.render, b, l', c.ttl, AllAt(c.ttl)));
    assert s.trace == TwoFills(c, l, l', a, b);
    TwoFillsAnswers(c, l, l', a, b, day);
  }

  // ---------------------------------------------------------------- the memo and one fill, step by step

  class StatsMemo {
    var stats: Stats
    var expiresAt: int
    var ready: bool

    constructor ()
      ensures !ready
    {
      stats, expiresAt, ready := "", 0, false;
    }

    predicate FreshAt(now: int)
      reads this
    {
      ready && now < expiresAt
    }

    method GetFresh(now: int) returns (found: Stats, ok: bool)
      ensures ok == (ready && now < expiresAt) && (ok ==> found == stats)
    {
      if !ready || expiresAt <= now {
        return "", false;
      }
      return stats, true;
    }

    method Put(loaded: Stats, ttl: int, now: int)
      modifies this
      ensures if ttl > 0 then ready && stats == loaded && expiresAt == now + ttl
              else ready == old(ready) && stats == old(stats) && expiresAt == old(expiresAt)
    {
      if ttl <= 0 {
        return;
      }
      stats, expiresAt, ready := loaded, now + ttl, true;
    }
  }

  datatype LoadResult = LoadFailed | Loaded(stats: Stats)

  ghost function ApplyAll(c: Cache, ops: seq<Op>): Cache {
    if ops == [] then c else ResponseCache.Apply(ApplyAll(c, ops[..|ops| - 1]), ops[|ops| - 1])
  }

  lemma {:induction false} ApplyAllContinues(maxEntries: int, ops: seq<Op>, more: seq<Op>)
    ensures RunOf(maxEntries, ops + more) == ApplyAll(RunOf(maxEntries, ops), more)
    decreases |more|
  {
    if more == [] {
      assert ops + more == ops;
    } else {
      ApplyAllContinues(maxEntries, ops, more[..|more| - 1]);
      assert (ops + more)[..|ops + more| - 1] == ops + more[..|more| - 1];
    }
  }

  method StorePayload(cache: Store, k: StatsKey, payload: string, ttl: int, now: int)
    requires DistinctWrites(cache.entries, cache.seqNo)
    modifies cache
    ensures DistinctWrites(cache.entries, cache.seqNo)
    ensures cache.Value() == SetSpec(old(cache.Value()), KeyOf(k), payload, ttl, now)
  {
    var key := BuildPublicCacheKey("stats" + ":" + Endpoint(k), Params(k));
    if ttl > 0 {
      cache.Set(key, payload, ttl, now);
    }
  }

  lemma BatchPrefix(c: Cache, batch: seq<Op>, i: nat)
    requires i < |batch| && batch[i].Set?
    ensures ApplyAll(c, batch[..i + 1]) ==
            SetSpec(ApplyAll(c, batch[..i]), batch[i].key, batch[i].payload, batch[i].ttl, batch[i].now)
  {
    assert batch[..i + 1][..i] == batch[..i];
  }

  /** Stores the entries of a fill up to the first whose payload cannot be encoded, if there is one. */
  method StoreAll(cache: Store, render: (StatsKey, Stats) -> string, stats: Stats, limit: nat, ttl: int,
                  times: seq<int>,
                  encodable: nat) returns (ok: bool)
    requires DistinctWrites(cache.entries, cache.seqNo) && |times| == 4
    modifies cache
    ensures DistinctWrites(cache.entries, cache.seqNo) && ok == (encodable >= 4)
    ensures cache.Value() ==
            ApplyAll(old(cache.Value()), FillOps(render, stats, limit, ttl, times)[..if ok then 4 else encodable])
  {
    ghost var batch := FillOps(render, stats, limit, ttl, times);
    var i := 0;
    while i < 4 && i < encodable
      invariant 0 <= i <= 4 && i <= encodable && DistinctWrites(cache.entries, cache.seqNo)
      invariant cache.Value() == ApplyAll(old(cache.Value()), batch[..i])
    {
      var k := Slot(limit, i);
      assert batch[i] == Set(KeyOf(k), render(k, stats), ttl, times[i]);
      StorePayload(cache, k, render(k, stats), ttl, times[i]);
      BatchPrefix(old(cache.Value()), batch, i);
      i := i + 1;
    }
    return i == 4;
  }

  function HashtagLimit(asked: int): nat {
    if asked <= 0 then 10 else asked
  }

  /** The clock readings of a request: its lookup, the memo's, those of the four stores, and its second lookup. */
  datatype Readings = Readings(lookup: int, memo: int, stores: seq<int>, again: int)

  ghost predicate Ticking(t: Readings) {
    |t.stores| == 4 && t.lookup <= t.memo && Between(t.memo, t.stores, t.again)
  }

  /**
   * One undisturbed fill: it writes the entries of `FillLeavesAllIff`, or nothing if no snapshot can be had, or
   * those before the first payload that cannot be encoded.
   */
  method FillSharedDiscoveryStats(memo: StatsMemo, cache: Store, render: (StatsKey, Stats) -> string, hashtagLimit: int,
                                  ttl: int, t: Readings, loaded: LoadResult, encodable: nat) returns (ok: bool)
    requires DistinctWrites(cache.entries, cache.seqNo) && |t.stores| == 4
    modifies memo, cache
    ensures DistinctWrites(cache.entries, cache.seqNo)
    ensures ok == (encodable >= 4 && (old(memo.FreshAt(t.memo)) || loaded.Loaded?))
    ensures !old(memo.FreshAt(t.memo)) && loaded.LoadFailed? ==> cache.Value() == old(cache.Value())
    ensures old(memo.FreshAt(t.memo)) || loaded.Loaded? ==>
              var stats := if old(memo.FreshAt(t.memo)) then old(memo.stats) else loaded.stats;
              var fill := FillOps(render, stats, HashtagLimit(hashtagLimit), ttl, t.stores);
              && cache.Value() == ApplyAll(old(cache.Value()), fill[..if ok then 4 else encodable])
              && (ttl > 0 ==> memo.FreshAt(t.memo) && memo.stats == stats)
  {
    var stats, found := memo.GetFresh(t.memo);
    if !found {
      if loaded.LoadFailed? {
        return false;
      }
      stats := loaded.stats;
      memo.Put(stats, ttl, t.memo);
    }
    ok := StoreAll(cache, render, stats, HashtagLimit(hashtagLimit), ttl, t.stores, encodable);
  }

  /** `refresh` tells whether a background fill is started. */
  datatype Response = Body(payload: string, refresh: bool) | FillError | CacheMissing

  /** What a lookup that misses leaves behind misses again as long as nothing is stored. */
  lemma MissAgain(maxEntries: int, ops: seq<Op>, key: string, now: int, again: int)
    requires LookupSpec(RunOf(maxEntries, ops), key, now).Miss?
    ensures LookupSpec(RunOf(maxEntries, ops + [Get(key, now)]), key, again).Miss?
  {
    assert (ops + [Get(key, now)])[..|ops|] == ops;
  }

  lemma {:induction false} NothingStored(c: Cache, ops: seq<Op>)
    requires forall i :: 0 <= i < |ops| ==> ops[i].Set? && ops[i].ttl <= 0
    ensures ApplyAll(c, ops) == c
  {
    if ops != [] {
      NothingStored(c, ops[..|ops| - 1]);
    }
  }

  lemma FoundAfterStores(maxEntries: int, ops: seq<Op>, render: (StatsKey, Stats) -> string, stats: Stats, limit: nat,
                         ttl: int,
                         t: Readings, i: nat)
    requires Clocked(ops) && NotBefore(ops, t.lookup) && Ticking(t) && i < 4 && ttl > 0
    ensures var found := LookupSpec(RunOf(maxEntries, ops + FillOps(render, stats, limit, ttl, t.stores)),
                                    KeyOf(Slot(limit, i)), t.again);
            && (found.Hit? <==> 4 - i <= Capacity(maxEntries) && t.again < t.stores[i] + ttl + StaleGrace(ttl))
            && (found.Hit? ==> found.payload == render(Slot(limit, i), stats))
  {
    FillLeavesAllIff(maxEntries, ops, render, stats, limit, ttl, t.stores, t.memo, t.again);
    assert FillKeys(limit)[i] == KeyOf(Slot(limit, i));
  }

  /** What the request for slot `i` finds after its fill. */
  lemma FoundAfterFill(maxEntries: int, ops: seq<Op>, render: (StatsKey, Stats) -> string, stats: Stats, limit: nat,
                       ttl: int,
                       t: Readings, i: nat)
    requires Clocked(ops) && NotBefore(ops, t.lookup) && Ticking(t) && i < 4
    requires LookupSpec(RunOf(maxEntries, ops), KeyOf(Slot(limit, i)), t.lookup).Miss?
    ensures var key := KeyOf(Slot(limit, i));
            var c := ApplyAll(RunOf(maxEntries, ops + [Get(key, t.lookup)]), FillOps(render, stats, limit, ttl, t.stores));
            var found := LookupSpec(c, key, t.again);
            && (found.Hit? <==> ttl > 0 && 4 - i <= Capacity(maxEntries) && t.again < t.stores[i] + ttl + StaleGrace(ttl))
            && (found.Hit? ==> found.payload == render(Slot(limit, i), stats))
  {
    var key := KeyOf(Slot(limit, i));
    var ops', batch := ops + [Get(key, t.lookup)], FillOps(render, stats, limit, ttl, t.stores);
    if ttl > 0 {
      ClockedAppend(ops, Get(key, t.lookup));
      ApplyAllContinues(maxEntries, ops', batch);
      FoundAfterStores(maxEntries, ops', render, stats, limit, ttl, t, i);
    } else {
      assert forall j :: 0 <= j < |batch| ==> batch[j].Set? && batch[j].ttl == ttl;
      NothingStored(RunOf(maxEntries, ops'), batch);
      MissAgain(maxEntries, ops, key, t.lookup, t.again);
    }
  }

  /** The second half of a request: fill, and look again. */
  method FillAndLookAgain(memo: StatsMemo, cache: Store, render: (StatsKey, Stats) -> string, hashtagLimit: int, i: nat,
                          key: string,
                          ttl: int, t: Readings, loaded: LoadResult, encodable: nat,
                          ghost maxEntries: int, ghost ops: seq<Op>) returns (r: Response)
    requires Clocked(ops) && NotBefore(ops, t.lookup) && Ticking(t) && i < 4
    requires key == KeyOf(Slot(HashtagLimit(hashtagLimit), i))
    requires LookupSpec(RunOf(maxEntries, ops), key, t.lookup).Miss? && DistinctWrites(cache.entries, cache.seqNo)
    requires cache.Value() == RunOf(maxEntries, ops + [Get(key, t.lookup)])
    modifies memo, cache
    ensures var stats := if old(memo.FreshAt(t.memo)) then Loaded(old(memo.stats)) else loaded;
            r == if stats.LoadFailed? || encodable < 4 then FillError
                 else if ttl > 0 && 4 - i <= Capacity(maxEntries) && t.again < t.stores[i] + ttl + StaleGrace(ttl)
                 then Body(render(Slot(HashtagLimit(hashtagLimit), i), stats.stats), false) else CacheMissing
  {
    var filled := FillSharedDiscoveryStats(memo, cache, render, hashtagLimit, ttl, t, loaded, encodable);
    if !filled {
      return FillError;
    }
    ghost var stats := if old(memo.FreshAt(t.memo)) then old(memo.stats) else loaded.stats;
    ghost var limit := HashtagLimit(hashtagLimit);
    assert FillOps(render, stats, limit, ttl, t.stores)[..4] == FillOps(render, stats, limit, ttl, t.stores);
    FoundAfterFill(maxEntries, ops, render, stats, limit, ttl, t, i);
    var payload, _, ok := cache.Get(key, t.again);
    if !ok {
      return CacheMissing;
    }
    return Body(payload, false);
  }

  /**
   * An undisturbed request for slot `i` of its limit, on the cache after the operations `ops`.  A hit is served,
   * and a stale one starts a refresh; a miss is served after the fill exactly if the cache holds the
   * 4 - i entries stored from its own on, whatever it held before.
   */
  method ServeSharedDiscoveryStats(memo: StatsMemo, cache: Store, render: (StatsKey, Stats) -> string,
                                   hashtagLimit: int, i: nat,
                                   ttl: int, t: Readings, loaded: LoadResult, encodable: nat,
                                   ghost maxEntries: int, ghost ops: seq<Op>) returns (r: Response)
    requires Clocked(ops) && NotBefore(ops, t.lookup) && Ticking(t) && i < 4
    requires cache.Value() == RunOf(maxEntries, ops)
    modifies memo, cache
    ensures var limit := if hashtagLimit <= 0 then 10 else hashtagLimit;
            var k := match i case 0 => Network(limit) case 1 => Content(limit) case 2 => Relay(true) case 3 => Relay(false);
            var room := if maxEntries <= 0 then 256 else maxEntries;
            var grace := if ttl < 300_000_000_000 then ttl else 300_000_000_000;
            var found := LookupSpec(RunOf(maxEntries, ops), KeyOf(k), t.lookup);
            var stats := if old(memo.ready && t.memo < memo.expiresAt) then Loaded(old(memo.stats)) else loaded;
            r == if found.Hit? then Body(found.payload, !found.isFresh)
                 else if stats.LoadFailed? || encodable < 4 then FillError
                 else if ttl > 0 && 4 - i <= room && t.again < t.stores[i] + ttl + grace
                 then Body(render(k, stats.stats), false) else CacheMissing
  {
    var k := Slot(HashtagLimit(hashtagLimit), i);
    SizeAndSequence(maxEntries, ops);
    var key := BuildPublicCacheKey("stats" + ":" + Endpoint(k), Params(k));
    var payload, isFresh, ok := cache.Get(key, t.lookup);
    if ok {
      return Body(payload, !isFresh);
    }
    assert (ops + [Get(key, t.lookup)])[..|ops|] == ops;
    r := FillAndLookAgain(memo, cache, render, hashtagLimit, i, key, ttl, t, loaded, encodable, maxEntries, ops);
  }
}
