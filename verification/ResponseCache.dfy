/**
 * The in-process response cache with a freshness window, a stale grace window and
 * capacity eviction by write order (internal/api/discovery_cache.go).
 *
 * Times and durations are nanoseconds.  `RunOf` gives the cache after a list of
 * operations; the trace functions below it (`LastSet`, `OthersSince`) say what the
 * cache ought to answer without mentioning entries, sequence numbers or eviction.
 */
module ResponseCache {
  import opened Common

  const MAX_STALE_GRACE: int := 300_000_000_000
  const DEFAULT_MAX_ENTRIES: nat := 256

  datatype Entry = Entry(payload: string, expiresAt: int, staleUntil: int, createdAt: nat)

  datatype Cache = Cache(max: nat, seqNo: nat, entries: map<string, Entry>)

  datatype Lookup = Miss | Hit(payload: string, isFresh: bool)

  datatype Op = Get(key: string, now: int) | Set(key: string, payload: string, ttl: int, now: int)

  function StaleGrace(ttl: int): int {
    if ttl <= 0 then 0 else if ttl > MAX_STALE_GRACE then MAX_STALE_GRACE else ttl
  }

  function Capacity(maxEntries: int): nat {
    if maxEntries <= 0 then DEFAULT_MAX_ENTRIES else maxEntries
  }

  function Empty(maxEntries: int): Cache {
    Cache(Capacity(maxEntries), 0, map[])
  }

  function LookupSpec(c: Cache, key: string, now: int): Lookup {
    if key !in c.entries || c.entries[key].staleUntil <= now then Miss
    else Hit(c.entries[key].payload, now < c.entries[key].expiresAt)
  }

  function GetSpec(c: Cache, key: string, now: int): Cache {
    if key in c.entries && c.entries[key].staleUntil <= now then c.(entries := c.entries - {key}) else c
  }

  function Live(m: map<string, Entry>, now: int): map<string, Entry> {
    map key | key in m && now < m[key].staleUntil :: m[key]
  }

  /** Everything but the entry written longest ago. */
  ghost function WithoutOldest(m: map<string, Entry>): map<string, Entry> {
    map key | key in m && (exists other :: other in m && m[other].createdAt < m[key].createdAt) :: m[key]
  }

  function Write(c: Cache, key: string, payload: string, ttl: int, now: int): Cache {
    Cache(c.max, c.seqNo + 1, c.entries[key := Entry(payload, now + ttl, now + ttl + StaleGrace(ttl), c.seqNo + 1)])
  }

  ghost function SetSpec(c: Cache, key: string, payload: string, ttl: int, now: int): Cache {
    if ttl <= 0 then c
    else
      var live := Live(c.entries, now);
      var room := if key !in live && |live| >= c.max then WithoutOldest(live) else live;
      Write(c.(entries := room), key, payload, ttl, now)
  }

  ghost predicate DistinctWrites(m: map<string, Entry>, seqNo: nat) {
    && (forall k :: k in m ==> m[k].createdAt <= seqNo)
    && (forall k, k' :: k in m && k' in m && m[k].createdAt == m[k'].createdAt ==> k == k')
  }

  lemma SetKeepsDistinctWrites(c: Cache, key: string, payload: string, ttl: int, now: int)
    requires DistinctWrites(c.entries, c.seqNo)
    ensures var c' := SetSpec(c, key, payload, ttl, now); DistinctWrites(c'.entries, c'.seqNo)
    ensures DistinctWrites(Live(c.entries, now), c.seqNo)
  {
  }

  class Store {
    const maxEntries: nat
    var seqNo: nat
    var entries: map<string, Entry>

    ghost function Value(): Cache
      reads this
    {
      Cache(maxEntries, seqNo, entries)
    }

    constructor (limit: int)
      ensures Value() == Empty(limit)
    {
      maxEntries := Capacity(limit);
      seqNo := 0;
      entries := map[];
    }

    method Get(key: string, now: int) returns (payload: string, isFresh: bool, ok: bool)
      modifies this
      ensures Value() == GetSpec(old(Value()), key, now)
      ensures LookupSpec(old(Value()), key, now) == if ok then Hit(payload, isFresh) else Miss
    {
      if key !in entries {
        return "", false, false;
      }
      var entry := entries[key];
      if entry.staleUntil <= now {
        entries := entries - {key};
        return "", false, false;
      }
      return entry.payload, now < entry.expiresAt, true;
    }

    method Set(key: string, payload: string, ttl: int, now: int)
      requires DistinctWrites(entries, seqNo)
      modifies this
      ensures Value() == SetSpec(old(Value()), key, payload, ttl, now)
      ensures DistinctWrites(entries, seqNo)
    {
      SetKeepsDistinctWrites(Value(), key, payload, ttl, now);
      if ttl <= 0 {
        return;
      }
      DeleteExpiredLocked(now);
      if key !in entries && |entries| >= maxEntries {
        EvictOldestLocked();
      }
      seqNo := seqNo + 1;
      entries := entries[key := Entry(payload, now + ttl, now + ttl + StaleGrace(ttl), seqNo)];
    }

    method DeleteExpiredLocked(now: int)
      modifies this`entries
      ensures entries == Live(old(entries), now)
    {
      var todo := entries.Keys;
      while todo != {}
        invariant todo <= old(entries).Keys
        invariant entries == map key | key in old(entries) &&
                                       (key in todo || now < old(entries)[key].staleUntil) :: old(entries)[key]
        decreases |todo|
      {
        var key :| key in todo;
        if entries[key].staleUntil <= now {
          entries := entries - {key};
        }
        todo := todo - {key};
      }
    }

    method EvictOldestLocked()
      requires DistinctWrites(entries, seqNo)
      modifies this`entries
      ensures entries == WithoutOldest(old(entries))
    {
      var oldestKey, oldestSeq, found := "", 0, false;
      var todo := entries.Keys;
      while todo != {}
        invariant todo <= entries.Keys && entries == old(entries)
        invariant found <==> todo != entries.Keys
        invariant found ==> oldestKey in entries && oldestKey !in todo && entries[oldestKey].createdAt == oldestSeq
        invariant found ==> forall k :: k in entries && k !in todo ==> oldestSeq <= entries[k].createdAt
        decreases |todo|
      {
        var key :| key in todo;
        if !found || entries[key].createdAt < oldestSeq {
          found, oldestSeq, oldestKey := true, entries[key].createdAt, key;
        }
        todo := todo - {key};
      }
      if found {
        entries := entries - {oldestKey};
      }
    }
  }

  // ---------------------------------------------------------------- traces

  ghost function Apply(c: Cache, op: Op): Cache {
    match op
    case Get(key, now) => GetSpec(c, key, now)
    case Set(key, payload, ttl, now) => SetSpec(c, key, payload, ttl, now)
  }

  ghost function RunOf(maxEntries: int, ops: seq<Op>): Cache {
    if ops == [] then Empty(maxEntries) else Apply(RunOf(maxEntries, ops[..|ops| - 1]), ops[|ops| - 1])
  }

  ghost predicate Clocked(ops: seq<Op>) {
    forall i, j :: 0 <= i < j < |ops| ==> ops[i].now <= ops[j].now
  }

  /** `now` is not before the last operation. */
  ghost predicate NotBefore(ops: seq<Op>, now: int) {
    ops != [] ==> ops[|ops| - 1].now <= now
  }

  predicate Stores(op: Op) {
    op.Set? && op.ttl > 0
  }

  /** The index of the last effective `set` of `key`, or -1. */
  function LastSet(ops: seq<Op>, key: string): (i: int)
    ensures -1 <= i < |ops|
    ensures i >= 0 ==> Stores(ops[i]) && ops[i].key == key
  {
    if ops == [] then -1
    else if Stores(ops[|ops| - 1]) && ops[|ops| - 1].key == key then |ops| - 1
    else LastSet(ops[..|ops| - 1], key)
  }

  /** The other keys stored after the last effective `set` of `key`. */
  function OthersSince(ops: seq<Op>, key: string): set<string> {
    if ops == [] then {}
    else
      var op := ops[|ops| - 1];
      if Stores(op) && op.key == key then {}
      else OthersSince(ops[..|ops| - 1], key) + (if Stores(op) then {op.key} else {})
  }

  function StaleUntil(op: Op): int
    requires op.Set?
  {
    op.now + op.ttl + StaleGrace(op.ttl)
  }

  /** What the trace says a lookup of `key` at `now` must find, capacity aside. */
  function Expected(ops: seq<Op>, key: string, now: int): Lookup {
    var i := LastSet(ops, key);
    if i < 0 || StaleUntil(ops[i]) <= now then Miss else Hit(ops[i].payload, now < ops[i].now + ops[i].ttl)
  }

  predicate Lapsed(ops: seq<Op>, key: string, now: int) {
    LastSet(ops, key) >= 0 && StaleUntil(ops[LastSet(ops, key)]) <= now
  }

  /** The other keys stored since `key` that could still be served at `now`. */
  function LiveOthers(ops: seq<Op>, key: string, now: int): set<string> {
    set k | k in OthersSince(ops, key) && !Lapsed(ops, k, now)
  }

  /** Once operation `j` is done, `max` other keys stored since `key` could be served. */
  predicate CrowdedAt(ops: seq<Op>, j: nat, key: string, max: nat)
    requires j < |ops|
  {
    |LiveOthers(ops[..j + 1], key, ops[j].now)| >= max
  }

  /** At some time since the last effective `set` of `key` there was no room left for it. */
  ghost predicate PushedOut(ops: seq<Op>, key: string, max: nat) {
    exists j :: LastSet(ops, key) < j < |ops| && CrowdedAt(ops, j, key, max)
  }

  // ---------------------------------------------------------------- agreement

  ghost predicate EntryAgrees(c: Cache, ops: seq<Op>, key: string) {
    key in c.entries ==>
      var i := LastSet(ops, key);
      i >= 0 && c.entries[key] == Entry(ops[i].payload, ops[i].now + ops[i].ttl, StaleUntil(ops[i]), c.entries[key].createdAt)
  }

  /** A key that was stored and is not held has lapsed by `now` or was pushed out. */
  ghost predicate AbsenceJustified(c: Cache, ops: seq<Op>, key: string, now: int) {
    key !in c.entries ==>
      var i := LastSet(ops, key);
      i < 0 || StaleUntil(ops[i]) <= now || PushedOut(ops, key, c.max)
  }

  ghost predicate WritesOrdered(c: Cache, ops: seq<Op>) {
    forall k, k' :: k in c.entries && k' in c.entries ==>
      (c.entries[k].createdAt < c.entries[k'].createdAt <==> k' in OthersSince(ops, k))
  }

  ghost predicate Shape(c: Cache, ops: seq<Op>) {
    && 0 < c.max && |c.entries| <= c.max
    && DistinctWrites(c.entries, c.seqNo)
    && WritesOrdered(c, ops)
    && (forall k :: EntryAgrees(c, ops, k))
  }

  /** A held key is never older than one that was pushed out: what was stored since is held or has lapsed. */
  ghost predicate OthersHeld(c: Cache, ops: seq<Op>, key: string, now: int) {
    key in c.entries ==> forall k' :: k' in OthersSince(ops, key) ==> k' in c.entries || Lapsed(ops, k', now)
  }

  ghost predicate Agrees(c: Cache, ops: seq<Op>, now: int) {
    Shape(c, ops) && (forall k :: AbsenceJustified(c, ops, k, now)) && (forall k :: OthersHeld(c, ops, k, now))
  }

  /** An operation that stores nothing leaves the trace functions alone. */
  lemma TraceUnchanged(ops: seq<Op>, op: Op, key: string)
    requires !Stores(op)
    ensures LastSet(ops + [op], key) == LastSet(ops, key) && OthersSince(ops + [op], key) == OthersSince(ops, key)
  {
    assert (ops + [op])[..|ops|] == ops;
  }

  lemma TraceStored(ops: seq<Op>, op: Op, key: string)
    requires Stores(op)
    ensures LastSet(ops + [op], key) == if key == op.key then |ops| else LastSet(ops, key)
    ensures OthersSince(ops + [op], key) == if key == op.key then {} else OthersSince(ops, key) + {op.key}
  {
    assert (ops + [op])[..|ops|] == ops;
  }

  lemma PushedOutPersists(ops: seq<Op>, op: Op, key: string, max: nat)
    requires PushedOut(ops, key, max) && !(Stores(op) && op.key == key)
    ensures PushedOut(ops + [op], key, max)
  {
    var j :| LastSet(ops, key) < j < |ops| && CrowdedAt(ops, j, key, max);
    assert (ops + [op])[..j + 1] == ops[..j + 1] && (ops + [op])[..|ops|] == ops;
    assert CrowdedAt(ops + [op], j, key, max);
  }

  /** A key that has been pushed out has `max` other keys stored since. */
  lemma PushedOutByOthers(ops: seq<Op>, key: string, max: nat)
    requires PushedOut(ops, key, max)
    ensures |OthersSince(ops, key)| >= max
  {
    var j :| LastSet(ops, key) < j < |ops| && CrowdedAt(ops, j, key, max);
    OthersGrow(ops, key, j + 1);
    SubsetCount(LiveOthers(ops[..j + 1], key, ops[j].now), OthersSince(ops, key));
  }

  lemma {:induction false} OthersGrow(ops: seq<Op>, key: string, n: nat)
    requires LastSet(ops, key) < n <= |ops|
    ensures OthersSince(ops[..n], key) <= OthersSince(ops, key) && LastSet(ops[..n], key) == LastSet(ops, key)
    decreases |ops|
  {
    if n < |ops| {
      OthersGrow(ops[..|ops| - 1], key, n);
      assert ops[..|ops| - 1][..n] == ops[..n];
    } else {
      assert ops[..n] == ops;
    }
  }

  /** Forgetting entries keeps the shape. */
  lemma ShapeRestricted(c: Cache, c': Cache, ops: seq<Op>)
    requires Shape(c, ops) && c'.max == c.max && c'.seqNo == c.seqNo
    requires c'.entries.Keys <= c.entries.Keys && forall k :: k in c'.entries ==> c'.entries[k] == c.entries[k]
    ensures Shape(c', ops)
  {
    SubsetCount(c'.entries.Keys, c.entries.Keys);
    forall k ensures EntryAgrees(c', ops, k) {
      assert EntryAgrees(c, ops, k);
    }
  }

  lemma ShapeUnchanged(c: Cache, ops: seq<Op>, op: Op)
    requires Shape(c, ops) && !Stores(op)
    ensures Shape(c, ops + [op])
  {
    forall k ensures EntryAgrees(c, ops + [op], k) && OthersSince(ops + [op], k) == OthersSince(ops, k) {
      TraceUnchanged(ops, op, k);
      assert EntryAgrees(c, ops, k);
    }
  }

  lemma ShapeWritten(c: Cache, ops: seq<Op>, op: Op)
    requires Shape(c, ops) && Stores(op)
    requires op.key in c.entries || |c.entries| < c.max
    ensures Shape(Write(c, op.key, op.payload, op.ttl, op.now), ops + [op])
  {
    var c' := Write(c, op.key, op.payload, op.ttl, op.now);
    assert c'.entries.Keys == c.entries.Keys + {op.key};
    forall k ensures EntryAgrees(c', ops + [op], k) {
      TraceStored(ops, op, k);
      assert EntryAgrees(c, ops, k);
    }
    OrderWritten(c, ops, op);
  }

  lemma OrderWritten(c: Cache, ops: seq<Op>, op: Op)
    requires DistinctWrites(c.entries, c.seqNo) && WritesOrdered(c, ops) && Stores(op)
    ensures var c' := Write(c, op.key, op.payload, op.ttl, op.now);
            DistinctWrites(c'.entries, c'.seqNo) && WritesOrdered(c', ops + [op])
  {
    var c' := Write(c, op.key, op.payload, op.ttl, op.now);
    forall k, k' | k in c'.entries && k' in c'.entries
      ensures c'.entries[k].createdAt < c'.entries[k'].createdAt <==> k' in OthersSince(ops + [op], k)
    {
      TraceStored(ops, op, k);
    }
  }

  /** Dropping lapsed entries keeps `OthersHeld`. */
  lemma HeldOrLapsed(c: Cache, c': Cache, ops: seq<Op>, key: string, before: int, now: int)
    requires Shape(c, ops) && OthersHeld(c, ops, key, before) && before <= now
    requires c'.entries.Keys <= c.entries.Keys
    requires forall k :: k in c.entries && k !in c'.entries ==> c.entries[k].staleUntil <= now
    ensures OthersHeld(c', ops, key, now)
  {
    if key in c'.entries {
      forall k' | k' in OthersSince(ops, key) && k' !in c'.entries ensures Lapsed(ops, k', now) {
        assert EntryAgrees(c, ops, k');
      }
    }
  }

  lemma AgreesStepGet(c: Cache, ops: seq<Op>, op: Op, before: int)
    requires Agrees(c, ops, before) && op.Get? && before <= op.now
    ensures Agrees(Apply(c, op), ops + [op], op.now)
  {
    var c' := Apply(c, op);
    ShapeRestricted(c, c', ops);
    ShapeUnchanged(c', ops, op);
    forall k ensures AbsenceJustified(c', ops + [op], k, op.now) && Lapsed(ops + [op], k, op.now) == Lapsed(ops, k, op.now) {
      TraceUnchanged(ops, op, k);
      assert EntryAgrees(c, ops, k) && AbsenceJustified(c, ops, k, before);
      if PushedOut(ops, k, c.max) {
        PushedOutPersists(ops, op, k, c.max);
      }
    }
    forall k ensures OthersHeld(c', ops + [op], k, op.now) {
      TraceUnchanged(ops, op, k);
      HeldOrLapsed(c, c', ops, k, before, op.now);
    }
  }

  /** Purging lapsed entries changes no answer at or after `now`. */
  lemma AgreesPurged(c: Cache, ops: seq<Op>, before: int, now: int)
    requires Agrees(c, ops, before) && before <= now
    ensures Agrees(c.(entries := Live(c.entries, now)), ops, now)
  {
    var c' := c.(entries := Live(c.entries, now));
    ShapeRestricted(c, c', ops);
    forall k ensures AbsenceJustified(c', ops, k, now) && OthersHeld(c', ops, k, now) {
      assert EntryAgrees(c, ops, k) && AbsenceJustified(c, ops, k, before);
      HeldOrLapsed(c, c', ops, k, before, now);
    }
  }

  /** Every other held key was stored after the oldest one. */
  lemma OldestHasAllOthersSince(c: Cache, ops: seq<Op>, oldest: string)
    requires DistinctWrites(c.entries, c.seqNo) && WritesOrdered(c, ops)
    requires oldest in c.entries && oldest !in WithoutOldest(c.entries)
    ensures c.entries.Keys - {oldest} <= OthersSince(ops, oldest)
    ensures WithoutOldest(c.entries) == c.entries - {oldest}
  {
    forall k | k in c.entries && k != oldest ensures c.entries[oldest].createdAt < c.entries[k].createdAt {
      assert !(c.entries[k].createdAt < c.entries[oldest].createdAt);
    }
  }

  lemma OldestExists(m: map<string, Entry>) returns (k: string)
    requires |m| > 0
    ensures k in m && k !in WithoutOldest(m)
  {
    k :| k in m.Keys;
    var todo := m.Keys - {k};
    while todo != {}
      invariant k in m && todo <= m.Keys && forall o :: o in m && o !in todo ==> m[k].createdAt <= m[o].createdAt
      decreases |todo|
    {
      var o :| o in todo;
      if m[o].createdAt < m[k].createdAt {
        k := o;
      }
      todo := todo - {o};
    }
  }

  /** Storing a key keeps every other absence justified. */
  lemma AbsenceAfterStore(c: Cache, c': Cache, ops: seq<Op>, op: Op, k: string)
    requires Stores(op) && AbsenceJustified(c, ops, k, op.now) && c'.max == c.max
    requires k in c.entries ==> k in c'.entries
    requires op.key in c'.entries
    ensures AbsenceJustified(c', ops + [op], k, op.now)
  {
    TraceStored(ops, op, k);
    if k != op.key && PushedOut(ops, k, c.max) {
      PushedOutPersists(ops, op, k, c.max);
    }
  }

  lemma OthersHeldAfterStore(c: Cache, c': Cache, ops: seq<Op>, op: Op, key: string)
    requires Stores(op) && op.key in c'.entries && OthersHeld(c, ops, key, op.now)
    requires key in c'.entries && key != op.key ==> key in c.entries
    requires key in c'.entries ==> forall k' :: k' in OthersSince(ops, key) && k' in c.entries ==> k' in c'.entries
    ensures OthersHeld(c', ops + [op], key, op.now)
  {
    TraceStored(ops, op, key);
    forall k' | key in c'.entries && k' in OthersSince(ops + [op], key) && k' !in c'.entries
      ensures Lapsed(ops + [op], k', op.now)
    {
      TraceStored(ops, op, k');
    }
  }

  lemma AgreesWritten(c: Cache, ops: seq<Op>, op: Op)
    requires Agrees(c, ops, op.now) && Stores(op)
    requires op.key in c.entries || |c.entries| < c.max
    ensures Agrees(Write(c, op.key, op.payload, op.ttl, op.now), ops + [op], op.now)
  {
    ShapeWritten(c, ops, op);
    var c' := Write(c, op.key, op.payload, op.ttl, op.now);
    forall k ensures AbsenceJustified(c', ops + [op], k, op.now) && OthersHeld(c', ops + [op], k, op.now) {
      AbsenceAfterStore(c, c', ops, op, k);
      OthersHeldAfterStore(c, c', ops, op, k);
    }
  }

  /** The entry a full cache gives up has `max` live keys stored since, the new one included. */
  lemma EvictedIsJustified(c: Cache, ops: seq<Op>, op: Op, oldest: string)
    requires Shape(c, ops) && Stores(op) && op.key !in c.entries && |c.entries| == c.max
    requires forall k :: k in c.entries ==> op.now < c.entries[k].staleUntil
    requires oldest in c.entries && c.entries.Keys - {oldest} <= OthersSince(ops, oldest)
    ensures PushedOut(ops + [op], oldest, c.max)
  {
    var ops' := ops + [op];
    TraceStored(ops, op, oldest);
    forall k | k in c.entries.Keys - {oldest} + {op.key} ensures k in LiveOthers(ops', oldest, op.now) {
      TraceStored(ops, op, k);
      assert EntryAgrees(c, ops, k);
    }
    SubsetCount(c.entries.Keys - {oldest} + {op.key}, LiveOthers(ops', oldest, op.now));
    assert ops'[..|ops| + 1] == ops';
    assert CrowdedAt(ops', |ops|, oldest, c.max);
  }

  /** A full cache drops its oldest entry and then writes a new key. */
  lemma AgreesEvicted(c: Cache, ops: seq<Op>, op: Op)
    requires Agrees(c, ops, op.now) && Stores(op) && op.key !in c.entries && |c.entries| == c.max
    requires forall k :: k in c.entries ==> op.now < c.entries[k].staleUntil
    ensures Agrees(Write(c.(entries := WithoutOldest(c.entries)), op.key, op.payload, op.ttl, op.now), ops + [op], op.now)
  {
    var oldest := OldestExists(c.entries);
    OldestHasAllOthersSince(c, ops, oldest);
    var c' := Write(c.(entries := WithoutOldest(c.entries)), op.key, op.payload, op.ttl, op.now);
    assert c'.entries.Keys == c.entries.Keys - {oldest} + {op.key};
    ShapeEvicted(c, ops, op, oldest);
    EvictedIsJustified(c, ops, op, oldest);
    forall k ensures AbsenceJustified(c', ops + [op], k, op.now) && OthersHeld(c', ops + [op], k, op.now) {
      if k != oldest {
        SurvivorUnaffected(c, c', ops, op, oldest, k);
      }
    }
  }

  lemma ShapeEvicted(c: Cache, ops: seq<Op>, op: Op, oldest: string)
    requires Shape(c, ops) && Stores(op) && oldest in c.entries && WithoutOldest(c.entries) == c.entries - {oldest}
    ensures Shape(Write(c.(entries := WithoutOldest(c.entries)), op.key, op.payload, op.ttl, op.now), ops + [op])
  {
    var room := c.(entries := WithoutOldest(c.entries));
    assert room.entries.Keys == c.entries.Keys - {oldest};
    ShapeRestricted(c, room, ops);
    ShapeWritten(room, ops, op);
  }

  lemma SurvivorUnaffected(c: Cache, c': Cache, ops: seq<Op>, op: Op, oldest: string, k: string)
    requires Stores(op) && op.key !in c.entries && oldest in c.entries && k != oldest && WritesOrdered(c, ops)
    requires AbsenceJustified(c, ops, k, op.now) && OthersHeld(c, ops, k, op.now)
    requires c.entries.Keys - {oldest} <= OthersSince(ops, oldest)
    requires c'.max == c.max && c'.entries.Keys == c.entries.Keys - {oldest} + {op.key}
    ensures AbsenceJustified(c', ops + [op], k, op.now) && OthersHeld(c', ops + [op], k, op.now)
  {
    AbsenceAfterStore(c, c', ops, op, k);
    assert k in c.entries ==> oldest !in OthersSince(ops, k);
    if k == op.key {
      TraceStored(ops, op, k);
    } else {
      OthersHeldAfterStore(c, c', ops, op, k);
    }
  }

  lemma AgreesStepSet(c: Cache, ops: seq<Op>, op: Op, before: int)
    requires Agrees(c, ops, before) && op.Set? && before <= op.now
    ensures Agrees(Apply(c, op), ops + [op], op.now)
  {
    if op.ttl <= 0 {
      ShapeUnchanged(c, ops, op);
      forall k ensures AbsenceJustified(c, ops + [op], k, op.now) && Lapsed(ops + [op], k, op.now) == Lapsed(ops, k, op.now) {
        TraceUnchanged(ops, op, k);
        assert AbsenceJustified(c, ops, k, before);
        if PushedOut(ops, k, c.max) {
          PushedOutPersists(ops, op, k, c.max);
        }
      }
      forall k ensures OthersHeld(c, ops + [op], k, op.now) {
        TraceUnchanged(ops, op, k);
        assert OthersHeld(c, ops, k, before);
      }
    } else {
      var purged := c.(entries := Live(c.entries, op.now));
      AgreesPurged(c, ops, before, op.now);
      if op.key !in purged.entries && |purged.entries| >= c.max {
        AgreesEvicted(purged, ops, op);
      } else {
        AgreesWritten(purged, ops, op);
      }
    }
  }

  lemma {:induction false} RunAgrees(maxEntries: int, ops: seq<Op>, now: int)
    requires Clocked(ops) && NotBefore(ops, now)
    ensures Agrees(RunOf(maxEntries, ops), ops, now)
    ensures RunOf(maxEntries, ops).max == Capacity(maxEntries)
    decreases |ops|
  {
    if ops != [] {
      var front, op := ops[..|ops| - 1], ops[|ops| - 1];
      assert front + [op] == ops;
      var before := if front == [] then op.now else front[|front| - 1].now;
      RunAgrees(maxEntries, front, before);
      if op.Get? {
        AgreesStepGet(RunOf(maxEntries, front), front, op, before);
      } else {
        AgreesStepSet(RunOf(maxEntries, front), front, op, before);
      }
      var c := RunOf(maxEntries, ops);
      assert forall k :: AbsenceJustified(c, ops, k, op.now) ==> AbsenceJustified(c, ops, k, now);
      assert forall k :: OthersHeld(c, ops, k, op.now) ==> OthersHeld(c, ops, k, now);
    }
  }

  lemma ShapeStep(c: Cache, ops: seq<Op>, op: Op)
    requires Shape(c, ops)
    ensures Shape(Apply(c, op), ops + [op])
  {
    if op.Get? {
      ShapeRestricted(c, Apply(c, op), ops);
      ShapeUnchanged(Apply(c, op), ops, op);
    } else if op.ttl <= 0 {
      ShapeUnchanged(c, ops, op);
    } else {
      var purged := c.(entries := Live(c.entries, op.now));
      ShapeRestricted(c, purged, ops);
      if op.key !in purged.entries && |purged.entries| >= c.max {
        var oldest := OldestExists(purged.entries);
        OldestHasAllOthersSince(purged, ops, oldest);
        ShapeEvicted(purged, ops, op, oldest);
      } else {
        ShapeWritten(purged, ops, op);
      }
    }
  }

  /** The order in which clock readings reach the lock does not matter for what is held. */
  lemma {:induction false} RunShape(maxEntries: int, ops: seq<Op>)
    ensures Shape(RunOf(maxEntries, ops), ops) && RunOf(maxEntries, ops).max == Capacity(maxEntries)
  {
    if ops != [] {
      var front := ops[..|ops| - 1];
      RunShape(maxEntries, front);
      ShapeStep(RunOf(maxEntries, front), front, ops[|ops| - 1]);
      assert front + [ops[|ops| - 1]] == ops;
    }
  }

  /** Whatever the run and the order of its clock readings, a hit is what the trace says. */
  lemma HitMatchesTrace(maxEntries: int, ops: seq<Op>, key: string, now: int)
    ensures var found := LookupSpec(RunOf(maxEntries, ops), key, now); found.Hit? ==> found == Expected(ops, key, now)
  {
    RunShape(maxEntries, ops);
    assert EntryAgrees(RunOf(maxEntries, ops), ops, key);
  }

  /**
   * On a forward clock a lookup answers exactly as the trace says it should, except that it may miss a key
   * that was pushed out, which takes at least `maxEntries` other keys stored since.
   */
  lemma LookupMatchesTrace(maxEntries: int, ops: seq<Op>, key: string, now: int)
    requires Clocked(ops) && NotBefore(ops, now)
    ensures var found := LookupSpec(RunOf(maxEntries, ops), key, now);
            && (found.Hit? ==> found == Expected(ops, key, now))
            && (!PushedOut(ops, key, Capacity(maxEntries)) ==> found == Expected(ops, key, now))
            && (|OthersSince(ops, key)| < Capacity(maxEntries) ==> found == Expected(ops, key, now))
  {
    RunAgrees(maxEntries, ops, now);
    var c := RunOf(maxEntries, ops);
    assert EntryAgrees(c, ops, key) && AbsenceJustified(c, ops, key, now);
    if PushedOut(ops, key, c.max) {
      PushedOutByOthers(ops, key, c.max);
    }
  }

  lemma {:induction false} NotOwnOther(ops: seq<Op>, key: string)
    ensures key !in OthersSince(ops, key)
  {
    if ops != [] {
      NotOwnOther(ops[..|ops| - 1], key);
    }
  }

  /** A key still held has fewer than `maxEntries` live keys stored since. */
  lemma HeldLeavesRoom(maxEntries: int, ops: seq<Op>, key: string, now: int)
    requires Clocked(ops) && NotBefore(ops, now) && key in RunOf(maxEntries, ops).entries
    ensures |LiveOthers(ops, key, now)| < Capacity(maxEntries)
  {
    RunAgrees(maxEntries, ops, now);
    var c := RunOf(maxEntries, ops);
    assert OthersHeld(c, ops, key, now);
    NotOwnOther(ops, key);
    SubsetCount(LiveOthers(ops, key, now) + {key}, c.entries.Keys);
  }

  /** What is held now has been held ever since it was stored. */
  lemma {:induction false} HeldEversince(maxEntries: int, ops: seq<Op>, key: string, n: nat)
    requires key in RunOf(maxEntries, ops).entries && LastSet(ops, key) < n <= |ops|
    ensures key in RunOf(maxEntries, ops[..n]).entries
    decreases |ops|
  {
    if n < |ops| {
      HeldEversince(maxEntries, ops[..|ops| - 1], key, n);
      assert ops[..|ops| - 1][..n] == ops[..n];
    } else {
      assert ops[..n] == ops;
    }
  }

  lemma HeldIsNotPushedOut(maxEntries: int, ops: seq<Op>, key: string)
    requires Clocked(ops) && key in RunOf(maxEntries, ops).entries
    ensures !PushedOut(ops, key, Capacity(maxEntries))
  {
    forall j | LastSet(ops, key) < j < |ops| ensures !CrowdedAt(ops, j, key, Capacity(maxEntries)) {
      HeldEversince(maxEntries, ops, key, j + 1);
      HeldLeavesRoom(maxEntries, ops[..j + 1], key, ops[j].now);
    }
  }

  /**
   * Exactly when a key is served, in every run: its window is open, and at no time since it was stored
   * could `maxEntries` other keys stored since be served.
   */
  lemma ServedIff(maxEntries: int, ops: seq<Op>, key: string, now: int)
    requires Clocked(ops) && NotBefore(ops, now)
    ensures LookupSpec(RunOf(maxEntries, ops), key, now).Hit? <==>
            Expected(ops, key, now).Hit? && !PushedOut(ops, key, Capacity(maxEntries))
  {
    LookupMatchesTrace(maxEntries, ops, key, now);
    if LookupSpec(RunOf(maxEntries, ops), key, now).Hit? {
      HeldIsNotPushedOut(maxEntries, ops, key);
    }
  }

  /** While nothing stored since has lapsed, that is to count the other keys stored since. */
  lemma ServedWhileOthersLive(maxEntries: int, ops: seq<Op>, key: string, now: int)
    requires Clocked(ops) && NotBefore(ops, now)
    requires forall k :: k in OthersSince(ops, key) ==> !Lapsed(ops, k, now)
    ensures LookupSpec(RunOf(maxEntries, ops), key, now).Hit? <==>
            Expected(ops, key, now).Hit? && |OthersSince(ops, key)| < Capacity(maxEntries)
  {
    LookupMatchesTrace(maxEntries, ops, key, now);
    assert LiveOthers(ops, key, now) == OthersSince(ops, key);
    if LookupSpec(RunOf(maxEntries, ops), key, now).Hit? {
      HeldLeavesRoom(maxEntries, ops, key, now);
    }
  }

  /** A served payload is younger than its ttl plus the smaller of that ttl and five minutes. */
  lemma ServedAge(maxEntries: int, ops: seq<Op>, key: string, now: int)
    requires LookupSpec(RunOf(maxEntries, ops), key, now).Hit?
    ensures var i := LastSet(ops, key);
            i >= 0 && now - ops[i].now < ops[i].ttl + (if ops[i].ttl < 300_000_000_000 then ops[i].ttl else 300_000_000_000)
  {
    HitMatchesTrace(maxEntries, ops, key, now);
  }

  /** The cache never outgrows its capacity and never reuses a write number. */
  lemma SizeAndSequence(maxEntries: int, ops: seq<Op>)
    ensures var c := RunOf(maxEntries, ops);
            |c.entries| <= (if maxEntries <= 0 then 256 else maxEntries) && DistinctWrites(c.entries, c.seqNo)
  {
    RunShape(maxEntries, ops);
  }

  // ---------------------------------------------------------------- the same in plain terms

  /** The keys written, with a positive ttl, by `ops`. */
  function Written(ops: seq<Op>): set<string> {
    set i | 0 <= i < |ops| && ops[i].Set? && ops[i].ttl > 0 :: ops[i].key
  }

  lemma WrittenMore(ops: seq<Op>, op: Op)
    ensures Written(ops + [op]) == Written(ops) + if op.Set? && op.ttl > 0 then {op.key} else {}
  {
    var all := ops + [op];
    forall k | k in Written(ops) + (if op.Set? && op.ttl > 0 then {op.key} else {}) ensures k in Written(all) {
      if k in Written(ops) {
        var i :| 0 <= i < |ops| && ops[i].Set? && ops[i].ttl > 0 && ops[i].key == k;
        assert all[i] == ops[i];
      } else {
        assert all[|ops|] == op;
      }
    }
  }

  lemma {:induction false} NeverWritten(ops: seq<Op>, key: string)
    requires key !in Written(ops)
    ensures LastSet(ops, key) == -1
  {
    if ops != [] {
      var front, op := ops[..|ops| - 1], ops[|ops| - 1];
      assert ops == front + [op];
      WrittenMore(front, op);
      NeverWritten(front, key);
    }
  }

  /** After a write of `key` and then `b`, without another write of it, that write is the last one. */
  lemma {:induction false} LastSetIs(a: seq<Op>, op: Op, b: seq<Op>)
    requires op.Set? && op.ttl > 0 && op.key !in Written(b)
    ensures LastSet(a + [op] + b, op.key) == |a| && OthersSince(a + [op] + b, op.key) == Written(b)
    decreases |b|
  {
    var ops := a + [op] + b;
    if b == [] {
      assert ops == a + [op];
      TraceStored(a, op, op.key);
    } else {
      var front, last := b[..|b| - 1], b[|b| - 1];
      assert b == front + [last] && ops == (a + [op] + front) + [last];
      WrittenMore(front, last);
      LastSetIs(a, op, front);
      if Stores(last) {
        TraceStored(a + [op] + front, last, op.key);
      } else {
        TraceUnchanged(a + [op] + front, last, op.key);
      }
    }
  }

  /**
   * A payload written last at `op.now` is served to the end of its ttl as fresh, and for the smaller of the ttl and five
   * minutes more as stale, unless as many other keys as the cache has room for were written since.
   */
  lemma ServedWindow(maxEntries: int, a: seq<Op>, op: Op, b: seq<Op>, now: int)
    requires Clocked(a + [op] + b) && NotBefore(a + [op] + b, now)
    requires op.Set? && op.ttl > 0 && op.key !in Written(b)
    requires |Written(b)| < if maxEntries <= 0 then 256 else maxEntries
    ensures LookupSpec(RunOf(maxEntries, a + [op] + b), op.key, now) ==
            if now < op.now + op.ttl then Hit(op.payload, true)
            else if now < op.now + op.ttl + (if op.ttl < 300_000_000_000 then op.ttl else 300_000_000_000) then
              Hit(op.payload, false)
            else Miss
  {
    var ops := a + [op] + b;
    LastSetIs(a, op, b);
    assert ops[|a|] == op;
    LookupMatchesTrace(maxEntries, ops, op.key, now);
  }

  /** A key never written is never served. */
  lemma NeverWrittenMisses(maxEntries: int, ops: seq<Op>, key: string, now: int)
    requires key !in Written(ops)
    ensures LookupSpec(RunOf(maxEntries, ops), key, now) == Miss
  {
    NeverWritten(ops, key);
    HitMatchesTrace(maxEntries, ops, key, now);
  }
}
