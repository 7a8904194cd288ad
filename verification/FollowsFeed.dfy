/**
 * The "follows" long-form feed: read each followed author's newest events, merge, deduplicate, sort and
 * truncate (internal/api_primal/primal_cache_dispatch_content.go and `sortAndLimitEvents` in
 * internal/api_primal/primal_thread.go).
 */
module FollowsFeed {
  import opened Common
  import opened Sorting

  /** A raw message: unreadable, or an event with its trimmed id. */
  datatype Raw = Malformed | Event(id: string, createdAt: int, body: string)

  predicate Readable(r: Raw) {
    r.Event? && r.id != ""
  }

  /** Newest first, ties by larger id first. */
  predicate Before(a: Raw, b: Raw) {
    a.Event? && b.Event? && (a.createdAt > b.createdAt || (a.createdAt == b.createdAt && StringLess(b.id, a.id)))
  }

  /** Event ids are content hashes: one id, one event. */
  ghost predicate IdsIdentify(S: set<Raw>) {
    && (forall e :: e in S ==> Readable(e))
    && (forall e, f :: e in S && f in S && e.id == f.id ==> e == f)
  }

  lemma BeforeOrders(S: set<Raw>)
    requires IdsIdentify(S)
    ensures Orders(Before, S)
  {
    forall x, y | x in S && y in S ensures !Before(x, x) && (x != y ==> Before(x, y) || Before(y, x)) {
      StringTotal(x.id, y.id);
    }
    forall x, y, z | x in S && y in S && z in S && Before(x, y) && Before(y, z) ensures Before(x, z) {
      if x.createdAt == z.createdAt {
        StringTransitive(z.id, y.id, x.id);
      }
    }
  }

  function Kept(limit: int, n: nat): nat {
    if limit > 0 && n > limit then limit else n
  }

  /** `out` lists, newest first, the newest `limit` elements of `S` (all of them without a positive limit). */
  ghost predicate IsTop(out: seq<Raw>, S: set<Raw>, limit: int) {
    && Sorted(Before, out) && Elements(out) <= S && |out| == Kept(limit, |S|)
    && forall x, y :: x in S && x !in Elements(out) && y in Elements(out) ==> Before(y, x)
  }

  /** What that means in terms of times and ids. */
  lemma TopIsNewest(out: seq<Raw>, S: set<Raw>, limit: int)
    requires IdsIdentify(S) && IsTop(out, S, limit)
    ensures forall i :: 0 <= i < |out| ==> out[i].Event? && out[i] in S
    ensures forall i, j :: 0 <= i < j < |out| ==>
              out[i].createdAt > out[j].createdAt || (out[i].createdAt == out[j].createdAt && StringLess(out[j].id, out[i].id))
    ensures forall x, y :: x in S && x !in out && y in out ==>
              y.createdAt > x.createdAt || (y.createdAt == x.createdAt && StringLess(x.id, y.id))
    ensures if 0 < limit < |S| then |out| == limit else forall x :: x in S ==> x in out
  {
    assert forall i :: 0 <= i < |out| ==> out[i] in Elements(out);
    if !(0 < limit < |S|) {
      SortedCount(out);
      SubsetOfSameSize(Elements(out), S);
    }
  }

  lemma {:induction false} SortedCount(s: seq<Raw>)
    requires Sorted(Before, s) && IdsIdentify(Elements(s))
    ensures |Elements(s)| == |s|
  {
    if s != [] {
      BeforeOrders(Elements(s));
      TailElements(Before, s);
      assert s[0] in Elements(s);
      SortedCount(s[1..]);
    }
  }

  lemma SubsetOfSameSize<T>(a: set<T>, b: set<T>)
    requires a <= b && |a| >= |b|
    ensures a == b
  {
    assert |b| == |a| + |b - a| by { assert b == a + (b - a); }
  }

  lemma TopWithin(out: seq<Raw>, out': seq<Raw>, S: set<Raw>, limit: int, x: Raw)
    requires IdsIdentify(S) && IsTop(out, S, limit) && IsTop(out', S, limit) && x in Elements(out)
    ensures x in Elements(out')
  {
    BeforeOrders(S);
    var e, e' := Elements(out), Elements(out');
    SortedCount(out);
    SortedCount(out');
    if x !in e' {
      if e' <= e {
        SubsetOfSameSize(e', e);
        assert false;
      }
      assert false;
    }
  }

  /** The top of a set is unique. */
  lemma TopUnique(out: seq<Raw>, out': seq<Raw>, S: set<Raw>, limit: int)
    requires IdsIdentify(S) && IsTop(out, S, limit) && IsTop(out', S, limit)
    ensures out == out'
  {
    forall x ensures x in Elements(out) <==> x in Elements(out') {
      if x in Elements(out) {
        TopWithin(out, out', S, limit, x);
      }
      if x in Elements(out') {
        TopWithin(out', out, S, limit, x);
      }
    }
    assert IdsIdentify(Elements(out));
    BeforeOrders(Elements(out));
    SortedUnique(Before, out, out');
  }

  /** The first elements of a sorted listing are the top of its set. */
  lemma TakeIsTop(s: seq<Raw>, limit: int)
    requires Sorted(Before, s) && IdsIdentify(Elements(s))
    ensures IsTop(s[..Kept(limit, |s|)], Elements(s), limit)
  {
    SortedCount(s);
    var k := Kept(limit, |s|);
    var out := s[..k];
    assert s == out + s[k..];
    forall x, y | x in Elements(s) && x !in Elements(out) && y in Elements(out) ensures Before(y, x) {
      var i :| 0 <= i < |s| && s[i] == x;
      var j :| 0 <= j < |out| && out[j] == y;
      assert forall m :: 0 <= m < k ==> out[m] in Elements(out);
      assert Before(s[j], s[i]);
    }
  }

  // ---------------------------------------------------------------- sortAndLimitEvents

  function Ids(events: seq<Raw>): set<string> {
    set e | e in events && e.Event? :: e.id
  }

  /** The first readable message of each id. */
  function Firsts(values: seq<Raw>): seq<Raw> {
    if values == [] then []
    else
      var rest, last := Firsts(values[..|values| - 1]), values[|values| - 1];
      if Readable(last) && last.id !in Ids(rest) then rest + [last] else rest
  }

  ghost predicate DistinctIds(f: seq<Raw>) {
    && (forall a :: 0 <= a < |f| ==> f[a].Event?)
    && (forall a, b :: 0 <= a < b < |f| ==> f[a].id != f[b].id)
  }

  /** `values[i]` is readable, with a non-blank id that nothing readable before it carries. */
  ghost predicate FirstAt(values: seq<Raw>, i: nat) {
    && i < |values| && values[i].Event? && values[i].id != ""
    && forall j :: 0 <= j < i ==> values[j].Malformed? || values[j].id != values[i].id
  }

  /** Exactly the first readable message of each id is kept. */
  lemma {:induction false} FirstsAreFirsts(values: seq<Raw>)
    ensures var f := Firsts(values);
            && (forall v :: v in f ==> v in values && Readable(v))
            && DistinctIds(f)
            && (forall v :: v in values && Readable(v) ==> v.id in Ids(f))
            && (forall v :: v in f <==> exists i: nat :: FirstAt(values, i) && values[i] == v)
  {
    if values != [] {
      var front, last := values[..|values| - 1], values[|values| - 1];
      assert values == front + [last];
      FirstsAreFirsts(front);
      FirstAtFront(values);
      var f := Firsts(front);
      LastIsFirstIff(front, last, f);
      if Readable(last) && last.id !in Ids(f) {
        var g := f + [last];
        forall a, b | 0 <= a < b < |g| ensures g[a].id != g[b].id {
          assert g[a] in f;
        }
        assert last in g && Ids(g) == Ids(f) + {last.id};
        assert Firsts(values) == g;
      } else {
        assert Firsts(values) == f;
      }
    }
  }

  lemma FirstAtFront(values: seq<Raw>)
    requires values != []
    ensures forall i: nat :: i < |values| - 1 ==> (FirstAt(values, i) <==> FirstAt(values[..|values| - 1], i))
  {
    var front := values[..|values| - 1];
    assert forall i :: 0 <= i < |front| ==> front[i] == values[i];
  }

  lemma LastIsFirstIff(front: seq<Raw>, last: Raw, firsts: seq<Raw>)
    requires forall v :: v in front && Readable(v) ==> v.id in Ids(firsts)
    requires forall v :: v in firsts ==> v in front && Readable(v)
    ensures FirstAt(front + [last], |front|) <==> Readable(last) && last.id !in Ids(firsts)
  {
    var values := front + [last];
    assert forall i :: 0 <= i < |front| ==> front[i] == values[i] && front[i] in front;
    if Readable(last) && last.id in Ids(firsts) {
      var e :| e in firsts && e.Event? && e.id == last.id;
      var j :| 0 <= j < |front| && front[j] == e;
    }
  }

  lemma FirstsIdentify(values: seq<Raw>)
    ensures IdsIdentify(Elements(Firsts(values)))
  {
    FirstsAreFirsts(values);
    var f := Firsts(values);
    forall x, y | x in Elements(f) && y in Elements(f) && x.id == y.id ensures x == y {
      var a :| 0 <= a < |f| && f[a] == x;
      var b :| 0 <= b < |f| && f[b] == y;
    }
  }

  method SortAndLimitEvents(values: seq<Raw>, limit: int) returns (out: seq<Raw>)
    ensures IsTop(out, Elements(Firsts(values)), limit)
  {
    var seen: set<string> := {};
    var ordered: seq<Raw> := [];
    var i := 0;
    while i < |values|
      invariant 0 <= i <= |values| && ordered == Firsts(values[..i]) && seen == Ids(ordered)
    {
      var value := values[i];
      assert values[..i + 1][..i] == values[..i];
      if Readable(value) {
        if value.id !in seen {
          seen := seen + {value.id};
          assert Ids(ordered + [value]) == Ids(ordered) + {value.id};
          ordered := ordered + [value];
        }
      }
      i := i + 1;
    }
    assert values[..i] == values;
    FirstsIdentify(values);
    FirstsAreFirsts(values);
    BeforeOrders(Elements(ordered));
    SortIsSorted(Before, ordered);
    var sorted := Sort(Before, ordered);
    TakeIsTop(sorted, limit);
    out := sorted;
    if limit > 0 && |sorted| > limit {
      out := sorted[..limit];
    }
    assert sorted[..|sorted|] == sorted;
  }

  // ---------------------------------------------------------------- the fan-in

  /** Everything any of `authors` wrote. */
  ghost function AllEvents(authors: seq<string>, store: string -> set<Raw>): set<Raw> {
    if authors == [] then {} else AllEvents(authors[..|authors| - 1], store) + store(authors[|authors| - 1])
  }

  function Collected(authors: seq<string>, read: string -> seq<Raw>): seq<Raw> {
    if authors == [] then [] else Collected(authors[..|authors| - 1], read) + read(authors[|authors| - 1])
  }

  lemma {:induction false} AllEventsMember(authors: seq<string>, store: string -> set<Raw>, e: Raw)
    ensures e in AllEvents(authors, store) <==> exists a :: a in authors && e in store(a)
  {
    if authors != [] {
      AllEventsMember(authors[..|authors| - 1], store, e);
      assert authors == authors[..|authors| - 1] + [authors[|authors| - 1]];
    }
  }

  lemma {:induction false} CollectedMember(authors: seq<string>, read: string -> seq<Raw>, e: Raw)
    ensures e in Collected(authors, read) <==> exists a :: a in authors && e in read(a)
  {
    if authors != [] {
      CollectedMember(authors[..|authors| - 1], read, e);
      assert authors == authors[..|authors| - 1] + [authors[|authors| - 1]];
    }
  }

  /** Each author's read returns that author's newest `limit` events. */
  ghost predicate ReadsAreTop(authors: seq<string>, store: string -> set<Raw>, read: string -> seq<Raw>, limit: int) {
    forall a :: a in authors ==> IsTop(read(a), store(a), limit)
  }

  /** Where ids identify events, deduplicating drops only repetitions. */
  lemma FirstsOfIdentified(values: seq<Raw>)
    requires IdsIdentify(Elements(values))
    ensures Elements(Firsts(values)) == Elements(values)
  {
    FirstsAreFirsts(values);
    forall v | v in Elements(values) ensures v in Elements(Firsts(values)) {
      assert v in values && v.id in Ids(Firsts(values));
      var e :| e in Firsts(values) && e.Event? && e.id == v.id;
      assert e in Elements(values);
    }
  }

  /** An event one author's read left out comes after every event of the top of what was collected. */
  lemma LeftOutIsLater(out: seq<Raw>, C: set<Raw>, U: set<Raw>, r: seq<Raw>, S: set<Raw>, limit: int, x: Raw, y: Raw)
    requires IdsIdentify(U) && C <= U && S <= U && limit > 0
    requires IsTop(out, C, limit) && IsTop(r, S, limit) && Elements(r) <= C
    requires x in S && x !in Elements(r) && y in Elements(out)
    ensures Before(y, x)
  {
    BeforeOrders(U);
    SortedCount(r);
    SortedCount(out);
    assert |r| == limit by {
      if |r| != limit {
        SubsetOfSameSize(Elements(r), S);
        assert false;
      }
    }
    SubsetCount(Elements(r), C);
    if !Before(y, x) {
      forall z | z in Elements(r) ensures z in Elements(out) && z != y {
        assert Before(z, x);
      }
      SubsetCount(Elements(r) + {y}, Elements(out));
      assert false;
    }
  }

  lemma NothingLeftOut(C: set<Raw>, r: seq<Raw>, S: set<Raw>, limit: int)
    requires IdsIdentify(S) && IsTop(r, S, limit) && Elements(r) <= C && |C| < limit
    ensures S <= C
  {
    SortedCount(r);
    SubsetCount(Elements(r), C);
    SubsetOfSameSize(Elements(r), S);
  }

  /** The top of what the reads returned is the top of everything the authors wrote. */
  lemma FanInIsTop(authors: seq<string>, store: string -> set<Raw>, read: string -> seq<Raw>, limit: int, out: seq<Raw>)
    requires limit > 0 && IdsIdentify(AllEvents(authors, store)) && ReadsAreTop(authors, store, read, limit)
    requires IsTop(out, Elements(Collected(authors, read)), limit)
    ensures IsTop(out, AllEvents(authors, store), limit)
  {
    var C, U := Elements(Collected(authors, read)), AllEvents(authors, store);
    CollectedWithinAll(authors, store, read, limit);
    forall x, y | x in U && x !in Elements(out) && y in Elements(out) ensures Before(y, x) {
      if x !in C {
        AllEventsMember(authors, store, x);
        var a :| a in authors && x in store(a);
        AuthorWithin(authors, store, read, limit, a);
        LeftOutIsLater(out, C, U, read(a), store(a), limit, x, y);
      }
    }
    SubsetCount(C, U);
    if |C| < limit {
      forall x | x in U ensures x in C {
        AllEventsMember(authors, store, x);
        var a :| a in authors && x in store(a);
        AuthorWithin(authors, store, read, limit, a);
        NothingLeftOut(C, read(a), store(a), limit);
      }
      assert C == U;
    }
  }

  lemma AuthorWithin(authors: seq<string>, store: string -> set<Raw>, read: string -> seq<Raw>, limit: int, a: string)
    requires a in authors && ReadsAreTop(authors, store, read, limit)
    ensures store(a) <= AllEvents(authors, store) && Elements(read(a)) <= Elements(Collected(authors, read))
  {
    forall e | e in store(a) ensures e in AllEvents(authors, store) {
      AllEventsMember(authors, store, e);
    }
    forall e | e in Elements(read(a)) ensures e in Elements(Collected(authors, read)) {
      CollectedMember(authors, read, e);
    }
  }

  lemma CollectedWithinAll(authors: seq<string>, store: string -> set<Raw>, read: string -> seq<Raw>, limit: int)
    requires ReadsAreTop(authors, store, read, limit)
    ensures Elements(Collected(authors, read)) <= AllEvents(authors, store)
  {
    forall e | e in Elements(Collected(authors, read)) ensures e in AllEvents(authors, store) {
      CollectedMember(authors, read, e);
      var a :| a in authors && e in read(a);
      AuthorWithin(authors, store, read, limit, a);
      assert e in Elements(read(a));
    }
  }

  ghost function Wrote(follows: set<string>, store: string -> set<Raw>): set<Raw> {
    set a, e | a in follows && e in store(a) :: e
  }

  lemma CollectedAppend(order: seq<string>, a: string, read: string -> seq<Raw>)
    ensures Collected(order + [a], read) == Collected(order, read) + read(a)
    ensures Elements(order + [a]) == Elements(order) + {a}
  {
    assert (order + [a])[..|order|] == order;
  }

  /** The reads of a set of authors, walked in some order. */
  method CollectReads(follows: set<string>, read: string -> seq<Raw>)
    returns (collected: seq<Raw>, ghost order: seq<string>)
    ensures Elements(order) == follows && collected == Collected(order, read)
  {
    collected := [];
    var todo := follows;
    order := [];
    while todo != {}
      invariant todo <= follows && Elements(order) == follows - todo
      invariant collected == Collected(order, read)
      decreases |todo|
    {
      var followed :| followed in todo;
      CollectedAppend(order, followed, read);
      collected := collected + read(followed);
      order := order + [followed];
      todo := todo - {followed};
    }
  }

  /** The order in which a set of authors is walked does not matter. */
  lemma AnyOrder(follows: set<string>, store: string -> set<Raw>, read: string -> seq<Raw>, limit: int,
                 order: seq<string>)
    requires forall a :: a in follows ==> IsTop(read(a), store(a), limit)
    requires Elements(order) == follows
    ensures AllEvents(order, store) == Wrote(follows, store) && ReadsAreTop(order, store, read, limit)
  {
    forall a ensures a in order <==> a in follows {
      assert a in order <==> a in Elements(order);
    }
    forall e ensures e in AllEvents(order, store) <==> e in Wrote(follows, store) {
      AllEventsMember(order, store, e);
    }
  }

  /**
   * The "follows" feed, walking the follow set in any order: exactly the newest `limit` events of
   * everything the followed authors wrote.
   */
  method FollowsFeed(follows: set<string>, ghost store: string -> set<Raw>, read: string -> seq<Raw>, limit: int)
    returns (out: seq<Raw>)
    requires limit > 0
    requires forall a :: a in follows ==> IsTop(read(a), store(a), limit)
    requires IdsIdentify(Wrote(follows, store))
    ensures IsTop(out, Wrote(follows, store), limit)
  {
    ghost var order: seq<string>;
    var collected: seq<Raw>;
    collected, order := CollectReads(follows, read);
    AnyOrder(follows, store, read, limit, order);
    CollectedWithinAll(order, store, read, limit);
    out := SortAndLimitEvents(collected, limit);
    FirstsOfIdentified(collected);
    FanInIsTop(order, store, read, limit, out);
  }
}
