/**
 * What a feed page collects around its posts (internal/api_primal/primal_enrich.go): quoted events, other
 * referenced events, quotes nested in those, and the authors whose profiles have to come along, each under a budget.
 *
 * JSON decoding, the pattern for note references in content and the canonical form of ids and keys are
 * parameters: an event arrives with its tags (fields trimmed) and the references found in its content.
 */
module Enrichment {
  import opened Common

  const MAX_REFERENCED: nat := 64
  const MAX_QUOTES: nat := 128
  const MAX_AUTHORS: nat := 100

  /** `inner` is the event embedded in a repost. */
  datatype Event = Event(id: string, pubkey: string, tags: seq<seq<string>>, contentRefs: seq<string>,
                         inner: Option<Event>)

  type Canon = string -> string

  predicate IsQuoteMarker(marker: string) {
    Lower(marker) == "mention" || Lower(marker) == "quote"
  }

  /** The reference a tag quotes, if any: every q tag, and e tags marked as a mention or a quote. */
  function TagQuote(tag: seq<string>): seq<string> {
    if |tag| < 2 then []
    else if Lower(tag[0]) == "q" then [tag[1]]
    else if Lower(tag[0]) == "e" && |tag| >= 4 && IsQuoteMarker(tag[3]) then [tag[1]]
    else []
  }

  function TagQuotes(tags: seq<seq<string>>): seq<string> {
    if tags == [] then [] else TagQuotes(tags[..|tags| - 1]) + TagQuote(tags[|tags| - 1])
  }

  /** What one event quotes, in the order it is found. */
  function QuotesOf(e: Event): seq<string> {
    TagQuotes(e.tags) + e.contentRefs
  }

  function QuoteList(events: seq<Event>): seq<string> {
    if events == [] then [] else QuoteList(events[..|events| - 1]) + QuotesOf(events[|events| - 1])
  }

  /** The author a q tag names beside the quoted event, if any. */
  function TagAuthor(tag: seq<string>): seq<string> {
    if |tag| >= 4 && Lower(tag[0]) == "q" then [tag[3]] else []
  }

  function TagAuthors(tags: seq<seq<string>>): seq<string> {
    if tags == [] then [] else TagAuthors(tags[..|tags| - 1]) + TagAuthor(tags[|tags| - 1])
  }

  /** The authors the quotes of `events` name. */
  function QuotedAuthors(events: seq<Event>): seq<string> {
    if events == [] then [] else QuotedAuthors(events[..|events| - 1]) + TagAuthors(events[|events| - 1].tags)
  }

  /** The targets of the tags of an event that go by `name`. */
  function TagTargets(tags: seq<seq<string>>, name: string): seq<string> {
    if tags == [] then []
    else
      var tag := tags[|tags| - 1];
      TagTargets(tags[..|tags| - 1], name) + (if |tag| >= 2 && Lower(tag[0]) == name && tag[1] != "" then [tag[1]] else [])
  }

  function TargetList(events: seq<Event>, name: string): seq<string> {
    if events == [] then [] else TargetList(events[..|events| - 1], name) + TagTargets(events[|events| - 1].tags, name)
  }

  /** A tag quotes `q`: a q tag, or an e tag of at least four fields whose fourth says so. */
  ghost predicate TagNames(tag: seq<string>, q: string) {
    && |tag| >= 2 && tag[1] == q
    && (Lower(tag[0]) == "q" || (Lower(tag[0]) == "e" && |tag| >= 4 && Lower(tag[3]) in ["mention", "quote"]))
  }

  /** What is quoted, in terms of tags and content. */
  ghost predicate Quotes(e: Event, q: string) {
    q in e.contentRefs || exists tag :: tag in e.tags && TagNames(tag, q)
  }

  lemma {:induction false} TagQuotesIff(tags: seq<seq<string>>, q: string)
    ensures q in TagQuotes(tags) <==> exists tag :: tag in tags && TagNames(tag, q)
  {
    if tags != [] {
      var front, last := tags[..|tags| - 1], tags[|tags| - 1];
      TagQuotesIff(front, q);
      assert tags == front + [last];
      assert q in TagQuote(last) <==> TagNames(last, q);
    }
  }

  lemma {:induction false} QuoteListIff(events: seq<Event>, q: string)
    ensures q in QuoteList(events) <==> exists e :: e in events && Quotes(e, q)
  {
    if events != [] {
      var front, last := events[..|events| - 1], events[|events| - 1];
      QuoteListIff(front, q);
      TagQuotesIff(last.tags, q);
      assert q in QuotesOf(last) <==> Quotes(last, q);
      assert forall e :: e in events <==> e in front || e == last;
    }
  }

  lemma Regroup(a: seq<string>, b: seq<string>, c: seq<string>)
    ensures a + b + c == a + (b + c)
  {
  }

  lemma {:induction false} TagQuotesConcat(a: seq<seq<string>>, b: seq<seq<string>>)
    ensures TagQuotes(a + b) == TagQuotes(a) + TagQuotes(b)
  {
    if b == [] {
      assert a + b == a;
    } else {
      var front, last := b[..|b| - 1], TagQuote(b[|b| - 1]);
      TagQuotesConcat(a, front);
      assert (a + b)[..|a + b| - 1] == a + front;
      Regroup(TagQuotes(a), TagQuotes(front), last);
    }
  }

  lemma {:induction false} QuoteListConcat(a: seq<Event>, b: seq<Event>)
    ensures QuoteList(a + b) == QuoteList(a) + QuoteList(b)
  {
    if b == [] {
      assert a + b == a;
    } else {
      var front, last := b[..|b| - 1], QuotesOf(b[|b| - 1]);
      QuoteListConcat(a, front);
      assert (a + b)[..|a + b| - 1] == a + front;
      Regroup(QuoteList(a), QuoteList(front), last);
    }
  }

  /** Quotes are listed event by event; within an event tag by tag, and those in its content last. */
  lemma QuotesInOrder(a: seq<Event>, e: Event, b: seq<Event>, s: seq<seq<string>>, tag: seq<string>,
                      t: seq<seq<string>>, q: string)
    requires e.tags == s + [tag] + t && TagNames(tag, q)
    ensures QuoteList(a + [e] + b) ==
            QuoteList(a) + (TagQuotes(s) + [q] + TagQuotes(t) + e.contentRefs) + QuoteList(b)
  {
    QuoteListConcat(a + [e], b);
    QuoteListConcat(a, [e]);
    TagQuotesConcat(s + [tag], t);
    TagQuotesConcat(s, [tag]);
    assert [e][..0] == [] && [tag][..0] == [];
    assert QuoteList([e]) == QuotesOf(e) && TagQuotes([tag]) == TagQuote(tag) == [q];
  }

  lemma {:induction false} TagAuthorsIff(tags: seq<seq<string>>, a: string)
    ensures a in TagAuthors(tags) <==> exists tag :: tag in tags && |tag| >= 4 && Lower(tag[0]) == "q" && tag[3] == a
  {
    if tags != [] {
      TagAuthorsIff(tags[..|tags| - 1], a);
      assert tags == tags[..|tags| - 1] + [tags[|tags| - 1]];
    }
  }

  /** An event names `a` as the author of something it quotes. */
  ghost predicate NamesAuthor(e: Event, a: string) {
    exists tag :: tag in e.tags && |tag| >= 4 && Lower(tag[0]) == "q" && tag[3] == a
  }

  lemma {:induction false} QuotedAuthorsIff(events: seq<Event>, a: string)
    ensures a in QuotedAuthors(events) <==> exists e :: e in events && NamesAuthor(e, a)
  {
    if events != [] {
      var front, last := events[..|events| - 1], events[|events| - 1];
      QuotedAuthorsIff(front, a);
      TagAuthorsIff(last.tags, a);
      assert a in TagAuthors(last.tags) <==> NamesAuthor(last, a);
      assert forall e :: e in events <==> e in front || e == last;
    }
  }

  /** An event has a tag `name` with target `t`. */
  ghost predicate Targets(e: Event, name: string, t: string) {
    t != "" && exists tag :: tag in e.tags && |tag| >= 2 && Lower(tag[0]) == name && tag[1] == t
  }

  lemma {:induction false} TagTargetsIff(tags: seq<seq<string>>, name: string, t: string)
    ensures t in TagTargets(tags, name) <==>
            t != "" && exists tag :: tag in tags && |tag| >= 2 && Lower(tag[0]) == name && tag[1] == t
  {
    if tags != [] {
      TagTargetsIff(tags[..|tags| - 1], name, t);
      assert tags == tags[..|tags| - 1] + [tags[|tags| - 1]];
    }
  }

  lemma {:induction false} TargetListIff(events: seq<Event>, name: string, t: string)
    ensures t in TargetList(events, name) <==> exists e :: e in events && Targets(e, name, t)
  {
    if events != [] {
      var front, last := events[..|events| - 1], events[|events| - 1];
      TargetListIff(front, name, t);
      TagTargetsIff(last.tags, name, t);
      assert t in TagTargets(last.tags, name) <==> Targets(last, name, t);
      assert forall e :: e in events <==> e in front || e == last;
    }
  }

  // ---------------------------------------------------------------- collecting ids

  /** Walk `refs` after having picked `ids`: add each new canonical id while there is room. */
  function Pick(canon: Canon, refs: seq<string>, skip: set<string>, limit: nat, ids: seq<string>): seq<string> {
    if refs == [] then ids
    else
      var before, id := Pick(canon, refs[..|refs| - 1], skip, limit, ids), canon(refs[|refs| - 1]);
      if |before| >= limit || id == "" || id in skip || id in before then before else before + [id]
  }

  ghost predicate CleanIds(ids: seq<string>, skip: set<string>) {
    Distinct(ids) && forall id :: id in ids ==> id != "" && id !in skip
  }

  /** Picked ids are new, distinct and within the budget; short of the budget nothing was passed over. */
  lemma {:induction false} PickProperties(canon: Canon, refs: seq<string>, skip: set<string>, limit: nat,
                                          ids: seq<string>)
    requires CleanIds(ids, skip)
    ensures var out := Pick(canon, refs, skip, limit, ids);
            && CleanIds(out, skip) && ids <= out && (|ids| <= limit ==> |out| <= limit)
            && (forall id :: id in out ==> id in ids || exists r :: r in refs && canon(r) == id)
            && (|out| < limit ==> forall r :: r in refs && canon(r) != "" && canon(r) !in skip ==> canon(r) in out)
    decreases |refs|
  {
    if refs != [] {
      var front, last := refs[..|refs| - 1], refs[|refs| - 1];
      assert refs == front + [last];
      PickProperties(canon, front, skip, limit, ids);
    }
  }

  /** The reference at `m` is taken at its first mention, unless it is on the list already or the list was full before. */
  ghost predicate Taken(canon: Canon, refs: seq<string>, skip: set<string>, limit: nat, ids: seq<string>, at: seq<nat>,
                        m: nat) {
    m < |refs| && canon(refs[m]) != "" && canon(refs[m]) !in skip ==>
      || canon(refs[m]) in ids
      || (exists k :: 0 <= k < |at| && at[k] <= m && canon(refs[at[k]]) == canon(refs[m]))
      || limit <= |ids|
      || (|at| == limit - |ids| && at[|at| - 1] < m)
  }

  /** The k-th new id was taken from place `at[k]`, after the one before it. */
  ghost predicate TakenAt(canon: Canon, refs: seq<string>, ids: seq<string>, out: seq<string>, at: seq<nat>, k: nat) {
    && k < |at| && |ids| + k < |out| && at[k] < |refs| && out[|ids| + k] == canon(refs[at[k]])
    && (k > 0 ==> at[k - 1] < at[k])
  }

  /** `at` are the places in `refs` the new ids were taken from. */
  ghost predicate TakenInOrder(canon: Canon, refs: seq<string>, skip: set<string>, limit: nat, ids: seq<string>,
                               out: seq<string>, at: seq<nat>) {
    && |out| == |ids| + |at| && ids <= out
    && (forall k: nat :: k < |at| ==> TakenAt(canon, refs, ids, out, at, k))
    && (forall m: nat :: Taken(canon, refs, skip, limit, ids, at, m))
  }

  /** Ids are taken in the order they are found, each at its first mention, until the list is full. */
  lemma {:induction false} PickInOrder(canon: Canon, refs: seq<string>, skip: set<string>, limit: nat, ids: seq<string>)
    returns (at: seq<nat>)
    ensures TakenInOrder(canon, refs, skip, limit, ids, Pick(canon, refs, skip, limit, ids), at)
    ensures limit >= |ids| ==> |Pick(canon, refs, skip, limit, ids)| <= limit
    decreases |refs|
  {
    if refs == [] {
      at := [];
    } else {
      var front, last := refs[..|refs| - 1], refs[|refs| - 1];
      var before := Pick(canon, front, skip, limit, ids);
      var at' := PickInOrder(canon, front, skip, limit, ids);
      assert front + [last] == refs;
      if |before| < limit && canon(last) != "" && canon(last) !in skip && canon(last) !in before {
        at := at' + [|front|];
        TakenLonger(canon, front, last, skip, limit, ids, before, at');
      } else {
        at := at';
        PassedOver(canon, front, last, skip, limit, ids, before, at');
      }
    }
  }

  /** The ids are the first new ones among the references, as many as the budget allows. */
  ghost predicate FirstOf(canon: Canon, refs: seq<string>, skip: set<string>, limit: nat, ids: seq<string>) {
    |ids| <= limit && exists at :: TakenInOrder(canon, refs, skip, limit, [], ids, at)
  }

  lemma PickIsFirst(canon: Canon, refs: seq<string>, skip: set<string>, limit: nat)
    ensures FirstOf(canon, refs, skip, limit, Pick(canon, refs, skip, limit, []))
  {
    var at := PickInOrder(canon, refs, skip, limit, []);
  }

  lemma TakenLonger(canon: Canon, front: seq<string>, last: string, skip: set<string>, limit: nat, ids: seq<string>,
                    before: seq<string>, at: seq<nat>)
    requires TakenInOrder(canon, front, skip, limit, ids, before, at) && |before| < limit
    ensures TakenInOrder(canon, front + [last], skip, limit, ids, before + [canon(last)], at + [|front|])
  {
    var refs, out, at' := front + [last], before + [canon(last)], at + [|front|];
    forall k: nat | k < |at'| ensures TakenAt(canon, refs, ids, out, at', k) {
      assert k < |at| ==> TakenAt(canon, front, ids, before, at, k);
      assert k == |at| > 0 ==> TakenAt(canon, front, ids, before, at, k - 1);
    }
    forall m: nat ensures Taken(canon, refs, skip, limit, ids, at', m) {
      if m < |front| {
        StillTaken(canon, front, last, skip, limit, ids, before, at, at', m);
      } else {
        assert at'[|at|] == |front|;
      }
    }
  }

  lemma PassedOver(canon: Canon, front: seq<string>, last: string, skip: set<string>, limit: nat, ids: seq<string>,
                   before: seq<string>, at: seq<nat>)
    requires TakenInOrder(canon, front, skip, limit, ids, before, at) && (|before| <= limit || limit <= |ids|)
    requires |before| >= limit || canon(last) == "" || canon(last) in skip || canon(last) in before
    ensures TakenInOrder(canon, front + [last], skip, limit, ids, before, at)
  {
    var refs := front + [last];
    forall k: nat | k < |at| ensures TakenAt(canon, refs, ids, before, at, k) {
      assert TakenAt(canon, front, ids, before, at, k);
    }
    forall m: nat ensures Taken(canon, refs, skip, limit, ids, at, m) {
      if m < |front| {
        StillTaken(canon, front, last, skip, limit, ids, before, at, at, m);
      } else if m == |front| {
        if canon(last) in before {
          TakenBefore(canon, front, last, skip, limit, ids, before, at);
        } else if |at| > 0 {
          assert TakenAt(canon, front, ids, before, at, |at| - 1);
        }
      }
    }
  }

  lemma StillTaken(canon: Canon, front: seq<string>, last: string, skip: set<string>, limit: nat, ids: seq<string>,
                   before: seq<string>, at: seq<nat>, at': seq<nat>, m: nat)
    requires m < |front| && TakenInOrder(canon, front, skip, limit, ids, before, at)
    requires at' == at || (at' == at + [|front|] && |ids| + |at| < limit)
    ensures Taken(canon, front + [last], skip, limit, ids, at', m)
  {
    assert Taken(canon, front, skip, limit, ids, at, m);
    if k :| 0 <= k < |at| && at[k] <= m && canon(front[at[k]]) == canon(front[m]) {
      assert at'[k] == at[k];
    }
  }

  lemma TakenBefore(canon: Canon, front: seq<string>, last: string, skip: set<string>, limit: nat, ids: seq<string>,
                    before: seq<string>, at: seq<nat>)
    requires TakenInOrder(canon, front, skip, limit, ids, before, at) && canon(last) in before
    ensures Taken(canon, front + [last], skip, limit, ids, at, |front|)
  {
    var p :| 0 <= p < |before| && before[p] == canon(last);
    if p >= |ids| {
      assert TakenAt(canon, front, ids, before, at, p - |ids|);
    } else {
      assert ids[p] == before[p];
    }
  }

  lemma {:induction false} PickConcat(canon: Canon, a: seq<string>, b: seq<string>, skip: set<string>, limit: nat,
                                      ids: seq<string>)
    ensures Pick(canon, a + b, skip, limit, ids) == Pick(canon, b, skip, limit, Pick(canon, a, skip, limit, ids))
    decreases |b|
  {
    if b == [] {
      assert a + b == a;
    } else {
      PickConcat(canon, a, b[..|b| - 1], skip, limit, ids);
      assert (a + b)[..|a + b| - 1] == a + b[..|b| - 1];
    }
  }

  /** A budget of one place per reference never runs out. */
  lemma AllPicked(canon: Canon, refs: seq<string>, limit: nat)
    requires |refs| <= limit
    ensures Distinct(Pick(canon, refs, {}, limit, []))
    ensures forall id :: id in Pick(canon, refs, {}, limit, []) <==> id != "" && exists r :: r in refs && canon(r) == id
  {
    PickProperties(canon, refs, {}, limit, []);
    PickCount(canon, refs, limit);
    forall r | r in refs && canon(r) != "" ensures canon(r) in Pick(canon, refs, {}, limit, []) {
      PickReaches(canon, refs, limit, r);
    }
  }

  lemma {:induction false} PickCount(canon: Canon, refs: seq<string>, limit: nat)
    ensures |Pick(canon, refs, {}, limit, [])| <= |refs|
  {
    if refs != [] {
      PickCount(canon, refs[..|refs| - 1], limit);
    }
  }

  lemma {:induction false} PickReaches(canon: Canon, refs: seq<string>, limit: nat, r: string)
    requires |refs| <= limit && r in refs && canon(r) != ""
    ensures canon(r) in Pick(canon, refs, {}, limit, [])
  {
    var front, last := refs[..|refs| - 1], refs[|refs| - 1];
    PickCount(canon, front, limit);
    if r != last {
      assert r in front;
      PickReaches(canon, front, limit, r);
    }
  }

  /** The id list and seen set the collecting closures share. */
  class IdCollector {
    var ids: seq<string>
    var seen: set<string>

    ghost predicate Tracks(skip: set<string>)
      reads this
    {
      seen == skip + (set id | id in ids)
    }

    constructor (skip: set<string>)
      ensures ids == [] && Tracks(skip)
    {
      ids, seen := [], skip;
    }

    method AddAll(canon: Canon, refs: seq<string>, ghost skip: set<string>, limit: nat)
      requires Tracks(skip)
      modifies this
      ensures Tracks(skip) && ids == Pick(canon, refs, skip, limit, old(ids))
    {
      for i := 0 to |refs|
        invariant Tracks(skip) && ids == Pick(canon, refs[..i], skip, limit, old(ids))
      {
        assert refs[..i + 1][..i] == refs[..i];
        if |ids| < limit {
          var id := canon(refs[i]);
          if id != "" && id !in seen {
            seen := seen + {id};
            ids := ids + [id];
          }
        }
      }
      assert refs[..|refs|] == refs;
    }
  }

  /** The quoted ids under the budget, and every author the quotes name, whether or not the quoted id still fits. */
  method QuoteReferences(canon: Canon, key: Canon, events: seq<Event>, skip: set<string>, limit: nat)
    returns (ids: seq<string>, authors: seq<string>)
    ensures ids == Pick(canon, QuoteList(events), skip, limit, [])
    ensures Distinct(authors)
    ensures forall a :: a in authors <==> a != "" && exists r :: r in QuotedAuthors(events) && key(r) == a
    ensures FirstOf(key, QuotedAuthors(events), {}, |QuotedAuthors(events)|, authors)
  {
    var c := new IdCollector(skip);
    var d := new IdCollector({});
    var room := |QuotedAuthors(events)|;
    for i := 0 to |events|
      invariant c != d && c.Tracks(skip) && c.ids == Pick(canon, QuoteList(events[..i]), skip, limit, [])
      invariant d.Tracks({}) && d.ids == Pick(key, QuotedAuthors(events[..i]), {}, room, [])
    {
      assert events[..i + 1][..i] == events[..i];
      PickConcat(canon, QuoteList(events[..i]), QuotesOf(events[i]), skip, limit, []);
      c.AddAll(canon, QuotesOf(events[i]), skip, limit);
      PickConcat(key, QuotedAuthors(events[..i]), TagAuthors(events[i].tags), {}, room, []);
      d.AddAll(key, TagAuthors(events[i].tags), {}, room);
    }
    assert events[..|events|] == events;
    AllPicked(key, QuotedAuthors(events), room);
    PickIsFirst(key, QuotedAuthors(events), {}, room);
    return c.ids, d.ids;
  }

  /** Quotes first, then the other e-tag targets, under one budget. */
  method CollectReferencedEventIDs(canon: Canon, key: Canon, posts: seq<Event>, skip: set<string>, limit: nat)
    returns (ids: seq<string>)
    ensures ids == Pick(canon, QuoteList(posts) + TargetList(posts, "e"), skip, limit, [])
  {
    var quotes, _ := QuoteReferences(canon, key, posts, skip, limit);
    PickConcat(canon, QuoteList(posts), TargetList(posts, "e"), skip, limit, []);
    if |quotes| >= limit {
      FullPickStops(canon, TargetList(posts, "e"), skip, limit, quotes);
      return quotes;
    }
    var c := new IdCollector(skip);
    c.ids, c.seen := quotes, skip + (set id | id in quotes);
    for i := 0 to |posts|
      invariant c.Tracks(skip) && c.ids == Pick(canon, TargetList(posts[..i], "e"), skip, limit, quotes)
    {
      assert posts[..i + 1][..i] == posts[..i];
      PickConcat(canon, TargetList(posts[..i], "e"), TagTargets(posts[i].tags, "e"), skip, limit, quotes);
      c.AddAll(canon, TagTargets(posts[i].tags, "e"), skip, limit);
    }
    assert posts[..|posts|] == posts;
    return c.ids;
  }

  lemma {:induction false} FullPickStops(canon: Canon, refs: seq<string>, skip: set<string>, limit: nat,
                                         ids: seq<string>)
    requires |ids| >= limit
    ensures Pick(canon, refs, skip, limit, ids) == ids
    decreases |refs|
  {
    if refs != [] {
      FullPickStops(canon, refs[..|refs| - 1], skip, limit, ids);
    }
  }

  // ---------------------------------------------------------------- resolving ids

  type Loader = seq<string> -> map<string, Event>

  /** The non-blank ids, each once, in order. */
  function Uniques(ids: seq<string>): seq<string> {
    if ids == [] then []
    else
      var rest, last := Uniques(ids[..|ids| - 1]), ids[|ids| - 1];
      if last == "" || last in rest then rest else rest + [last]
  }

  function Missing(ids: seq<string>, known: map<string, Event>): seq<string> {
    if ids == [] then []
    else
      var rest, last := Missing(ids[..|ids| - 1], known), ids[|ids| - 1];
      if last in known then rest else rest + [last]
  }

  function Found(ids: seq<string>, events: map<string, Event>): seq<Event> {
    if ids == [] then []
    else
      var rest, last := Found(ids[..|ids| - 1], events), ids[|ids| - 1];
      if last in events then rest + [events[last]] else rest
  }

  /** Events already at hand first, then those the store has. */
  function Resolved(ids: seq<string>, known: map<string, Event>, load: Loader): seq<Event> {
    var unique := Uniques(ids);
    var missing := Missing(unique, known);
    Found(unique, known) + Found(missing, load(missing))
  }

  method ResolveReferenced(ids: seq<string>, known: map<string, Event>, load: Loader) returns (out: seq<Event>)
    ensures out == Resolved(ids, known, load)
  {
    out := [];
    var missing: seq<string> := [];
    var seen: set<string> := {};
    ghost var unique: seq<string> := [];
    for i := 0 to |ids|
      invariant unique == Uniques(ids[..i]) && seen == set id | id in unique
      invariant out == Found(unique, known) && missing == Missing(unique, known)
    {
      assert ids[..i + 1][..i] == ids[..i];
      var id := ids[i];
      if id == "" || id in seen {
        continue;
      }
      seen := seen + {id};
      assert (unique + [id])[..|unique|] == unique;
      unique := unique + [id];
      if id in known {
        out := out + [known[id]];
      } else {
        missing := missing + [id];
      }
    }
    assert ids[..|ids|] == ids;
    var loaded := LoadReferenced(missing, load(missing));
    out := out + loaded;
  }

  method LoadReferenced(ids: seq<string>, found: map<string, Event>) returns (out: seq<Event>)
    ensures out == Found(ids, found)
  {
    out := [];
    for i := 0 to |ids|
      invariant out == Found(ids[..i], found)
    {
      assert ids[..i + 1][..i] == ids[..i];
      if ids[i] in found {
        out := out + [found[ids[i]]];
      }
    }
    assert ids[..|ids|] == ids;
  }

  lemma {:induction false} FoundProperties(ids: seq<string>, events: map<string, Event>, known: map<string, Event>)
    ensures |Found(ids, events)| <= |ids|
    ensures forall e :: e in Found(ids, events) ==> exists id :: id in ids && id in events && events[id] == e
    ensures forall id :: id in Missing(ids, known) ==> id in ids && id !in known
    ensures forall id :: id in ids && id in events ==> events[id] in Found(ids, events)
    ensures |Found(ids, known)| + |Missing(ids, known)| == |ids|
    ensures forall id :: id in ids && id !in known ==> id in Missing(ids, known)
    decreases |ids|
  {
    if ids != [] {
      FoundProperties(ids[..|ids| - 1], events, known);
      assert ids == ids[..|ids| - 1] + [ids[|ids| - 1]];
    }
  }

  /** The events found, in the order of the ids asked for. */
  lemma {:induction false} FoundInOrder(ids: seq<string>, events: map<string, Event>) returns (at: seq<nat>)
    ensures var out := Found(ids, events);
            && |at| == |out| && (forall j, k :: 0 <= j < k < |at| ==> at[j] < at[k])
            && (forall k :: 0 <= k < |at| ==> at[k] < |ids| && ids[at[k]] in events && out[k] == events[ids[at[k]]])
            && (forall i :: 0 <= i < |ids| && ids[i] in events ==> i in at)
    decreases |ids|
  {
    at := [];
    if ids != [] {
      var front, last := ids[..|ids| - 1], ids[|ids| - 1];
      var before := FoundInOrder(front, events);
      assert forall i :: 0 <= i < |front| ==> front[i] == ids[i];
      at := before;
      if last in events {
        at := before + [|front|];
        assert forall i :: i in before ==> i in at;
        assert at[|before|] == |front|;
      }
    }
  }

  /** What is asked of the store: the ids not at hand, in order. */
  lemma {:induction false} MissingInOrder(a: seq<string>, id: string, b: seq<string>, known: map<string, Event>)
    ensures Missing(a + [id] + b, known) ==
            Missing(a, known) + (if id in known then [] else [id]) + Missing(b, known)
    decreases |b|
  {
    var ids := a + [id] + b;
    if b == [] {
      assert ids[..|ids| - 1] == a;
    } else {
      var front, last := b[..|b| - 1], b[|b| - 1];
      MissingInOrder(a, id, front, known);
      assert ids[..|ids| - 1] == a + [id] + front;
      var before := Missing(a, known) + (if id in known then [] else [id]);
      if last !in known {
        Regroup(before, Missing(front, known), [last]);
      }
    }
  }

  lemma {:induction false} UniquesArePicked(ids: seq<string>, limit: nat)
    requires |ids| <= limit
    ensures Uniques(ids) == Pick(id => id, ids, {}, limit, [])
    decreases |ids|
  {
    if ids != [] {
      UniquesArePicked(ids[..|ids| - 1], limit);
      UniquesProperties(ids[..|ids| - 1]);
    }
  }

  lemma {:induction false} UniquesProperties(ids: seq<string>)
    ensures |Uniques(ids)| <= |ids|
    ensures forall id :: id in Uniques(ids) <==> id in ids && id != ""
    decreases |ids|
  {
    if ids != [] {
      UniquesProperties(ids[..|ids| - 1]);
      assert ids == ids[..|ids| - 1] + [ids[|ids| - 1]];
    }
  }

  /** `e` is what is at hand for `id`, or what the store has for it when the ids at hand are not asked for again. */
  ghost predicate Yields(asked: seq<string>, known: map<string, Event>, load: Loader, id: string, e: Event) {
    var loaded := load(Missing(Uniques(asked), known));
    if id in known then e == known[id] else id in loaded && e == loaded[id]
  }

  /** The events are exactly those that can be had for the ids. */
  ghost predicate Resolves(ids: seq<string>, known: map<string, Event>, load: Loader, events: seq<Event>) {
    && (forall id, e :: id in ids && id != "" && Yields(ids, known, load, id, e) ==> e in events)
    && (forall e :: e in events ==> exists id :: id in ids && id != "" && Yields(ids, known, load, id, e))
  }

  /** No more events than ids, exactly those that are known or can be loaded. */
  lemma ResolvedProperties(ids: seq<string>, known: map<string, Event>, load: Loader)
    ensures |Resolved(ids, known, load)| <= |ids| && Resolves(ids, known, load, Resolved(ids, known, load))
  {
    var unique := Uniques(ids);
    var missing := Missing(unique, known);
    UniquesProperties(ids);
    FoundProperties(unique, known, known);
    FoundProperties(missing, load(missing), known);
    forall e | e in Resolved(ids, known, load) ensures exists id :: id in ids && id != "" && Yields(ids, known, load, id, e) {
      if e in Found(unique, known) {
        var id :| id in unique && id in known && known[id] == e;
        assert Yields(ids, known, load, id, e);
      } else {
        var id :| id in missing && id in load(missing) && load(missing)[id] == e;
        assert Yields(ids, known, load, id, e);
      }
    }
  }

  // ---------------------------------------------------------------- the references of a page

  function Inners(posts: seq<Event>): seq<Event> {
    if posts == [] then []
    else
      var rest, last := Inners(posts[..|posts| - 1]), posts[|posts| - 1];
      if last.inner.Some? then rest + [last.inner.value] else rest
  }

  function PageIds(canon: Canon, posts: seq<Event>): set<string> {
    (set p | p in posts && p.id != "" :: p.id) + (set p | p in posts && p.id != "" && canon(p.id) != "" :: canon(p.id))
  }

  /** The ids not to collect beside the quotes: those of the page and of the quotes. */
  function PageSkip(canon: Canon, posts: seq<Event>, quotes: seq<string>): set<string> {
    PageIds(canon, posts) + (set id | id in quotes)
  }

  function Remember(canon: Canon, known: map<string, Event>, e: Event): map<string, Event> {
    if e.id == "" then known
    else if canon(e.id) == "" then known[e.id := e]
    else known[e.id := e][canon(e.id) := e]
  }

  /** The events on the page, reposted ones included, under their ids. */
  function KnownEvents(canon: Canon, posts: seq<Event>): map<string, Event> {
    if posts == [] then map[]
    else
      var last := posts[|posts| - 1];
      var known := Remember(canon, KnownEvents(canon, posts[..|posts| - 1]), last);
      if last.inner.Some? then Remember(canon, known, last.inner.value) else known
  }

  lemma {:induction false} InnersConcat(a: seq<Event>, b: seq<Event>)
    ensures Inners(a + b) == Inners(a) + Inners(b)
  {
    if b == [] {
      assert a + b == a;
    } else {
      InnersConcat(a, b[..|b| - 1]);
      assert (a + b)[..|a + b| - 1] == a + b[..|b| - 1];
    }
  }

  /** The reposted events, in the order of their reposts. */
  lemma InnersInOrder(a: seq<Event>, p: Event, b: seq<Event>)
    ensures Inners(a + [p] + b) == match p.inner
                                   case Some(e) => Inners(a) + [e] + Inners(b)
                                   case None => Inners(a) + Inners(b)
  {
    InnersConcat(a + [p], b);
    InnersConcat(a, [p]);
    assert [p][..0] == [];
    assert Inners([p]) == match p.inner case Some(e) => [e] case None => [];
  }

  /** `id` is the id, or the canonical id, of `e`. */
  predicate Names(canon: Canon, id: string, e: Event) {
    e.id != "" && (e.id == id || canon(e.id) == id)
  }

  lemma PageIdsIff(canon: Canon, posts: seq<Event>, id: string)
    ensures id in PageIds(canon, posts) <==> id != "" && exists p :: p in posts && Names(canon, id, p)
  {
  }

  /** The events of `S` are known under their id and canonical id, and nothing else is known. */
  ghost predicate Knows(canon: Canon, known: map<string, Event>, S: set<Event>) {
    && (forall e, id :: e in S && id != "" && Names(canon, id, e) ==> id in known)
    && (forall id :: id in known ==> known[id] in S && Names(canon, id, known[id]))
  }

  lemma RememberKnows(canon: Canon, known: map<string, Event>, S: set<Event>, e: Event)
    requires Knows(canon, known, S)
    ensures Knows(canon, Remember(canon, known, e), S + {e})
  {
  }

  lemma {:induction false} KnownIsThePage(canon: Canon, posts: seq<Event>)
    ensures Knows(canon, KnownEvents(canon, posts), set e | e in posts + Inners(posts))
    decreases |posts|
  {
    var page := set e | e in posts + Inners(posts);
    if posts != [] {
      var front, last := posts[..|posts| - 1], posts[|posts| - 1];
      var before := set e | e in front + Inners(front);
      KnownIsThePage(canon, front);
      RememberKnows(canon, KnownEvents(canon, front), before, last);
      assert posts == front + [last];
      if last.inner.Some? {
        RememberKnows(canon, Remember(canon, KnownEvents(canon, front), last), before + {last}, last.inner.value);
        assert page == before + {last} + {last.inner.value};
      } else {
        assert page == before + {last};
      }
    }
  }

  ghost predicate NotNamed(canon: Canon, id: string, posts: seq<Event>) {
    forall p :: p in posts ==> !Names(canon, id, p) && (p.inner.Some? ==> !Names(canon, id, p.inner.value))
  }

  lemma KnownAfter(canon: Canon, posts: seq<Event>, p: Event, id: string)
    requires id != ""
    ensures var known := KnownEvents(canon, posts + [p]);
            if p.inner.Some? && Names(canon, id, p.inner.value) then id in known && known[id] == p.inner.value
            else if Names(canon, id, p) then id in known && known[id] == p
            else (id in known <==> id in KnownEvents(canon, posts)) &&
                 (id in known ==> known[id] == KnownEvents(canon, posts)[id])
  {
    var all := posts + [p];
    assert all[..|all| - 1] == posts && all[|all| - 1] == p;
  }

  /** Of several events with one id the last is known; a reposted event comes after its repost. */
  lemma {:induction false} KnownIsLast(canon: Canon, a: seq<Event>, p: Event, b: seq<Event>, id: string)
    requires id != "" && NotNamed(canon, id, b)
    ensures p.inner.Some? && Names(canon, id, p.inner.value) ==>
              id in KnownEvents(canon, a + [p] + b) && KnownEvents(canon, a + [p] + b)[id] == p.inner.value
    ensures Names(canon, id, p) && (p.inner.None? || !Names(canon, id, p.inner.value)) ==>
              id in KnownEvents(canon, a + [p] + b) && KnownEvents(canon, a + [p] + b)[id] == p
    decreases |b|
  {
    if b == [] {
      assert a + [p] + b == a + [p];
      KnownAfter(canon, a, p, id);
    } else {
      var front, last := b[..|b| - 1], b[|b| - 1];
      assert a + [p] + b == (a + [p] + front) + [last];
      assert last in b && forall e :: e in front ==> e in b;
      KnownIsLast(canon, a, p, front, id);
      KnownAfter(canon, a + [p] + front, last, id);
    }
  }

  /** `direct` are the events of the direct quotes and other references, `deeper` those of the nested quotes. */
  datatype References = References(quotes: seq<string>, others: seq<string>, nested: seq<string>,
                                   direct: seq<Event>, deeper: seq<Event>, quoteAuthors: seq<string>) {
    function Referenced(): seq<Event> {
      direct + deeper
    }
  }

  /** The ids not to collect again from inside referenced events. */
  function NestedSkip(canon: Canon, skip: set<string>, ids: seq<string>, referenced: seq<Event>): set<string> {
    skip + (set id | id in ids) + PageIds(canon, referenced)
  }

  /** Every element is the canonical form of one of `refs`. */
  ghost predicate TakenFrom(canon: Canon, refs: seq<string>, ids: seq<string>) {
    forall id :: id in ids ==> exists q :: q in refs && canon(q) == id
  }

  /** Every canonical form of one of `refs` is there, except those to skip. */
  ghost predicate TakesAll(canon: Canon, refs: seq<string>, skip: set<string>, ids: seq<string>) {
    forall q :: q in refs && canon(q) != "" && canon(q) !in skip ==> canon(q) in ids
  }

  /** The authors the quotes of `events` name, each at its first mention. */
  ghost predicate NamedInOrder(key: Canon, events: seq<Event>, authors: seq<string>) {
    FirstOf(key, QuotedAuthors(events), {}, |QuotedAuthors(events)|, authors)
  }

  /** Direct quotes, other references and quoted authors: exactly those found, the first ones, within the budgets. */
  ghost predicate DirectOf(canon: Canon, key: Canon, posts: seq<Event>, quotes: seq<string>, others: seq<string>,
                           authors: seq<string>) {
    var scan, refs := QuoteList(posts + Inners(posts)), QuoteList(posts) + TargetList(posts, "e");
    var skip := PageSkip(canon, posts, quotes);
    && CleanIds(quotes, {}) && |quotes| <= 128 && CleanIds(others, skip) && |others| <= 64
    && TakenFrom(canon, scan, quotes) && (|quotes| < 128 ==> TakesAll(canon, scan, {}, quotes))
    && TakenFrom(canon, refs, others) && (|others| < 64 ==> TakesAll(canon, refs, skip, others))
    && FirstOf(canon, scan, {}, 128, quotes) && FirstOf(canon, refs, skip, 64, others)
    && TakenFrom(key, QuotedAuthors(posts + Inners(posts)), authors)
    && TakesAll(key, QuotedAuthors(posts + Inners(posts)), {}, authors)
    && NamedInOrder(key, posts + Inners(posts), authors)
  }

  /** Nested quotes and their authors, looked for while there is room. */
  ghost predicate NestedOf(canon: Canon, key: Canon, direct: seq<Event>, skip: set<string>, room: nat,
                           nested: seq<string>, authors: seq<string>) {
    && CleanIds(nested, skip) && |nested| <= room && TakenFrom(canon, QuoteList(direct), nested)
    && (|nested| < room ==> TakesAll(canon, QuoteList(direct), skip, nested))
    && FirstOf(canon, QuoteList(direct), skip, room, nested)
    && TakenFrom(key, QuotedAuthors(direct), authors)
    && (room > 0 ==> TakesAll(key, QuotedAuthors(direct), {}, authors) && NamedInOrder(key, direct, authors))
    && (room == 0 ==> authors == [])
  }

  /** Direct quotes and other references of the posts. */
  method CollectDirect(canon: Canon, key: Canon, posts: seq<Event>)
    returns (quotes: seq<string>, others: seq<string>, authors: seq<string>)
    ensures DirectOf(canon, key, posts, quotes, others, authors)
  {
    quotes, authors := QuoteReferences(canon, key, posts + Inners(posts), {}, MAX_QUOTES);
    PickProperties(canon, QuoteList(posts + Inners(posts)), {}, MAX_QUOTES, []);
    var skip := PageSkip(canon, posts, quotes);
    others := CollectReferencedEventIDs(canon, key, posts, skip, MAX_REFERENCED);
    PickProperties(canon, QuoteList(posts) + TargetList(posts, "e"), skip, MAX_REFERENCED, []);
    PickIsFirst(canon, QuoteList(posts + Inners(posts)), {}, MAX_QUOTES);
    PickIsFirst(canon, QuoteList(posts) + TargetList(posts, "e"), skip, MAX_REFERENCED);
  }

  /** Quotes inside the referenced events, in what is left of the quote budget. */
  method CollectNested(canon: Canon, key: Canon, referenced: seq<Event>, skip: set<string>, room: nat)
    returns (nested: seq<string>, authors: seq<string>)
    ensures CleanIds(nested, skip) && |nested| <= room && TakenFrom(canon, QuoteList(referenced), nested)
    ensures |nested| < room ==> TakesAll(canon, QuoteList(referenced), skip, nested)
    ensures TakenFrom(key, QuotedAuthors(referenced), authors) && TakesAll(key, QuotedAuthors(referenced), {}, authors)
    ensures FirstOf(canon, QuoteList(referenced), skip, room, nested)
    ensures FirstOf(key, QuotedAuthors(referenced), {}, |QuotedAuthors(referenced)|, authors)
  {
    nested, authors := QuoteReferences(canon, key, referenced, skip, room);
    PickProperties(canon, QuoteList(referenced), skip, room, []);
    PickIsFirst(canon, QuoteList(referenced), skip, room);
  }

  method ResolveAll(ids: seq<string>, known: map<string, Event>, load: Loader) returns (events: seq<Event>)
    ensures |events| <= |ids| && Resolves(ids, known, load, events)
  {
    events := ResolveReferenced(ids, known, load);
    ResolvedProperties(ids, known, load);
  }

  /** The ids: distinct, within their budgets, and exactly the quotes and references found, as far as the budgets go. */
  ghost predicate IdsOf(canon: Canon, posts: seq<Event>, r: References) {
    var skip := PageSkip(canon, posts, r.quotes);
    && Distinct(r.quotes + r.others + r.nested) && "" !in r.quotes + r.others + r.nested
    && |r.quotes| + |r.nested| <= MAX_QUOTES && |r.others| <= MAX_REFERENCED
    && (forall id :: id in r.others + r.nested ==> id !in PageIds(canon, posts))
    && TakenFrom(canon, QuoteList(posts + Inners(posts)), r.quotes)
    && (|r.quotes| < MAX_QUOTES ==> TakesAll(canon, QuoteList(posts + Inners(posts)), {}, r.quotes))
    && TakenFrom(canon, QuoteList(posts) + TargetList(posts, "e"), r.others)
    && (|r.others| < MAX_REFERENCED ==> TakesAll(canon, QuoteList(posts) + TargetList(posts, "e"), skip, r.others))
    && TakenFrom(canon, QuoteList(r.direct), r.nested)
    && (|r.quotes| + |r.nested| < MAX_QUOTES ==>
         TakesAll(canon, QuoteList(r.direct), NestedSkip(canon, skip, r.quotes + r.others, r.direct), r.nested))
  }

  /** Which ids fit the budgets: the first ones found.  Quotes on the page and inside mentions share one budget. */
  ghost predicate OrderOf(canon: Canon, posts: seq<Event>, r: References) {
    var skip := PageSkip(canon, posts, r.quotes);
    && FirstOf(canon, QuoteList(posts + Inners(posts)), {}, 128, r.quotes)
    && FirstOf(canon, QuoteList(posts) + TargetList(posts, "e"), skip, 64, r.others)
    && FirstOf(canon, QuoteList(r.direct), NestedSkip(canon, skip, r.quotes + r.others, r.direct), 128 - |r.quotes|,
               r.nested)
  }

  /** The events: exactly those that can be had for the ids. */
  ghost predicate EventsOf(canon: Canon, posts: seq<Event>, load: Loader, r: References) {
    var known := KnownEvents(canon, posts);
    && |r.Referenced()| <= 192
    && Resolves(r.quotes + r.others, known, load, r.direct) && Resolves(r.nested, known, load, r.deeper)
  }

  /**
   * The authors: exactly those named in the quotes of the page, and of the events it refers to if these are searched.
   */
  ghost predicate QuoteAuthorsOf(key: Canon, posts: seq<Event>, r: References) {
    && TakenFrom(key, QuotedAuthors(posts + Inners(posts)) + QuotedAuthors(r.direct), r.quoteAuthors)
    && TakesAll(key, QuotedAuthors(posts + Inners(posts)), {}, r.quoteAuthors)
    && (|r.quotes| < MAX_QUOTES ==> TakesAll(key, QuotedAuthors(r.direct), {}, r.quoteAuthors))
    && exists a, b :: NamedInTurn(key, posts, r, a, b)
  }

  /** First those named on the page, then those named inside mentions if these were searched. */
  ghost predicate NamedInTurn(key: Canon, posts: seq<Event>, r: References, a: seq<string>, b: seq<string>) {
    && r.quoteAuthors == a + b && NamedInOrder(key, posts + Inners(posts), a)
    && if |r.quotes| < 128 then NamedInOrder(key, r.direct, b) else b == []
  }

  lemma NothingFits(canon: Canon, events: seq<Event>, skip: set<string>, room: nat)
    requires events == [] || room == 0
    ensures FirstOf(canon, QuoteList(events), skip, room, [])
  {
    var nowhere: seq<nat> := [];
    assert TakenInOrder(canon, QuoteList(events), skip, room, [], [], nowhere);
  }

  lemma NobodyNamed(key: Canon)
    ensures FirstOf(key, QuotedAuthors([]), {}, 0, [])
  {
    var nowhere: seq<nat> := [];
    assert TakenInOrder(key, QuotedAuthors([]), {}, 0, [], [], nowhere);
  }

  /** Quotes inside mentions are looked for only while the quote budget lasts. */
  method SearchMentions(canon: Canon, key: Canon, direct: seq<Event>, skip: set<string>, room: nat,
                        known: map<string, Event>, load: Loader)
    returns (nested: seq<string>, authors: seq<string>, deeper: seq<Event>)
    ensures NestedOf(canon, key, direct, skip, room, nested, authors)
    ensures |deeper| <= |nested| && Resolves(nested, known, load, deeper)
  {
    nested, authors, deeper := [], [], [];
    if |direct| > 0 && room > 0 {
      nested, authors := CollectNested(canon, key, direct, skip, room);
      deeper := ResolveAll(nested, known, load);
    } else {
      NothingFits(canon, direct, skip, room);
      NobodyNamed(key);
    }
  }

  /** What is collected around the posts of a page. */
  method CollectReferences(canon: Canon, key: Canon, posts: seq<Event>, load: Loader) returns (r: References)
    ensures IdsOf(canon, posts, r) && EventsOf(canon, posts, load, r) && QuoteAuthorsOf(key, posts, r)
    ensures OrderOf(canon, posts, r)
  {
    var known := KnownEvents(canon, posts);
    var quotes, others, authors := CollectDirect(canon, key, posts);
    var ids := quotes + others;
    var direct := ResolveAll(ids, known, load);
    var skip := NestedSkip(canon, PageSkip(canon, posts, quotes), ids, direct);
    var room := MAX_QUOTES - |quotes|;
    var nested, nestedAuthors, deeper := SearchMentions(canon, key, direct, skip, room, known, load);
    r := References(quotes, others, nested, direct, deeper, authors + nestedAuthors);
    AllAssembled(canon, key, posts, load, quotes, others, authors, direct, skip, room, nested, nestedAuthors, deeper);
  }

  lemma AllAssembled(canon: Canon, key: Canon, posts: seq<Event>, load: Loader, quotes: seq<string>, others: seq<string>,
                     a: seq<string>, direct: seq<Event>, skip: set<string>, room: nat, nested: seq<string>,
                     b: seq<string>, deeper: seq<Event>)
    requires DirectOf(canon, key, posts, quotes, others, a)
    requires skip == NestedSkip(canon, PageSkip(canon, posts, quotes), quotes + others, direct)
    requires room == 128 - |quotes| && NestedOf(canon, key, direct, skip, room, nested, b)
    requires |direct| <= |quotes + others| && Resolves(quotes + others, KnownEvents(canon, posts), load, direct)
    requires |deeper| <= |nested| && Resolves(nested, KnownEvents(canon, posts), load, deeper)
    ensures var r := References(quotes, others, nested, direct, deeper, a + b);
            && IdsOf(canon, posts, r) && EventsOf(canon, posts, load, r) && QuoteAuthorsOf(key, posts, r)
            && OrderOf(canon, posts, r)
  {
    var r := References(quotes, others, nested, direct, deeper, a + b);
    Assembled(canon, key, posts, r, a, b);
    AuthorsAssembled(key, posts, r, a, b);
  }

  lemma Assembled(canon: Canon, key: Canon, posts: seq<Event>, r: References, a: seq<string>, b: seq<string>)
    requires DirectOf(canon, key, posts, r.quotes, r.others, a)
    requires var skip := NestedSkip(canon, PageSkip(canon, posts, r.quotes), r.quotes + r.others, r.direct);
             NestedOf(canon, key, r.direct, skip, 128 - |r.quotes|, r.nested, b)
    ensures IdsOf(canon, posts, r)
  {
    DistinctParts(r.quotes, r.others, r.nested);
    assert forall id :: id in r.quotes + r.others + r.nested ==> id in r.quotes || id in r.others || id in r.nested;
    assert forall id :: id in r.others + r.nested ==> id in r.others || id in r.nested;
  }

  lemma AuthorsAssembled(key: Canon, posts: seq<Event>, r: References, a: seq<string>, b: seq<string>)
    requires r.quoteAuthors == a + b && NamedInOrder(key, posts + Inners(posts), a)
    requires if |r.quotes| < 128 then NamedInOrder(key, r.direct, b) else b == []
    requires TakenFrom(key, QuotedAuthors(posts + Inners(posts)), a) && TakenFrom(key, QuotedAuthors(r.direct), b)
    requires TakesAll(key, QuotedAuthors(posts + Inners(posts)), {}, a)
    requires |r.quotes| < 128 ==> TakesAll(key, QuotedAuthors(r.direct), {}, b)
    ensures QuoteAuthorsOf(key, posts, r)
  {
    assert NamedInTurn(key, posts, r, a, b);
  }

  lemma DistinctParts(a: seq<string>, b: seq<string>, c: seq<string>)
    requires Distinct(a) && Distinct(b) && Distinct(c)
    requires forall x :: x in b ==> x !in a
    requires forall x :: x in c ==> x !in a && x !in b
    ensures Distinct(a + b + c)
  {
    var all := a + b + c;
    forall i, j | 0 <= i < j < |all| ensures all[i] != all[j] {
      assert i < |a| ==> all[i] in a;
      assert |a| <= i < |a| + |b| ==> all[i] in b;
      assert |a| <= j < |a| + |b| ==> all[j] in b;
      assert |a| + |b| <= j ==> all[j] in c;
    }
  }

  // ---------------------------------------------------------------- which quotes are emitted

  ghost predicate Idempotent(canon: Canon) {
    forall s :: canon(canon(s)) == canon(s)
  }

  /** A store that answers with what it holds of the ids asked for, each event under a name of its own. */
  ghost predicate Faithful(canon: Canon, load: Loader, store: map<string, Event>) {
    && (forall ids :: load(ids) == map id | id in ids && id in store :: store[id])
    && (forall id :: id in store ==> Names(canon, id, store[id]))
  }

  /** An event that goes by `id` comes with the page as a mention. */
  ghost predicate Emitted(canon: Canon, r: References, id: string) {
    exists e :: e in r.Referenced() && Names(canon, id, e)
  }

  /** An event that goes by `id` is on the page, in a repost or in the store. */
  ghost predicate CanBeHad(canon: Canon, posts: seq<Event>, store: map<string, Event>, id: string) {
    id in KnownEvents(canon, posts) || id in store
  }

  lemma LoadedIff(canon: Canon, load: Loader, store: map<string, Event>, ids: seq<string>, id: string)
    requires Faithful(canon, load, store)
    ensures id in load(ids) <==> id in ids && id in store
    ensures id in load(ids) ==> load(ids)[id] == store[id]
  {
    assert load(ids) == map i | i in ids && i in store :: store[i];
  }

  lemma MissingIff(asked: seq<string>, known: map<string, Event>, id: string)
    requires id in asked && id != "" && id !in known
    ensures id in Missing(Uniques(asked), known)
  {
    UniquesProperties(asked);
    FoundProperties(Uniques(asked), known, known);
  }

  lemma YieldsIff(canon: Canon, known: map<string, Event>, load: Loader, store: map<string, Event>, asked: seq<string>,
                  id: string)
    requires Faithful(canon, load, store) && id in asked && id != ""
    ensures (exists e :: Yields(asked, known, load, id, e)) <==> id in known || id in store
  {
    if id in known {
      assert Yields(asked, known, load, id, known[id]);
    } else {
      var missing := Missing(Uniques(asked), known);
      MissingIff(asked, known, id);
      LoadedIff(canon, load, store, missing, id);
      if id in store {
        assert Yields(asked, known, load, id, load(missing)[id]);
      } else {
        assert forall e :: !Yields(asked, known, load, id, e);
      }
    }
  }

  /** What an id yields goes by that id. */
  lemma YieldIsNamed(canon: Canon, posts: seq<Event>, load: Loader, store: map<string, Event>, asked: seq<string>,
                     id: string, e: Event)
    requires Faithful(canon, load, store) && Yields(asked, KnownEvents(canon, posts), load, id, e)
    ensures Names(canon, id, e)
  {
    KnownIsThePage(canon, posts);
    LoadedIff(canon, load, store, Missing(Uniques(asked), KnownEvents(canon, posts)), id);
  }

  /** An event goes by one canonical id only. */
  lemma OneCanonicalName(canon: Canon, id: string, id': string, e: Event)
    requires canon(id) == id && canon(id') == id' && Names(canon, id, e) && Names(canon, id', e)
    ensures id == id'
  {
  }

  lemma TakenIsCanonical(canon: Canon, refs: seq<string>, ids: seq<string>, id: string)
    requires Idempotent(canon) && TakenFrom(canon, refs, ids) && id in ids
    ensures canon(id) == id
  {
    var q :| q in refs && canon(q) == id;
  }

  lemma AskedIsCanonical(canon: Canon, posts: seq<Event>, r: References, id: string)
    requires Idempotent(canon) && IdsOf(canon, posts, r) && id in r.quotes + r.others + r.nested
    ensures canon(id) == id
  {
    if id in r.quotes {
      TakenIsCanonical(canon, QuoteList(posts + Inners(posts)), r.quotes, id);
    } else if id in r.others {
      TakenIsCanonical(canon, QuoteList(posts) + TargetList(posts, "e"), r.others, id);
    } else {
      TakenIsCanonical(canon, QuoteList(r.direct), r.nested, id);
    }
  }

  /** What is emitted was asked for: no event of a list resolved from `asked` goes by a canonical id outside it. */
  lemma ResolvedIsAsked(canon: Canon, posts: seq<Event>, load: Loader, store: map<string, Event>, r: References,
                        asked: seq<string>, events: seq<Event>, id: string, e: Event)
    requires Idempotent(canon) && Faithful(canon, load, store) && IdsOf(canon, posts, r)
    requires forall i :: i in asked ==> i in r.quotes + r.others + r.nested
    requires Resolves(asked, KnownEvents(canon, posts), load, events) && e in events
    requires canon(id) == id && Names(canon, id, e)
    ensures id in asked
  {
    var known := KnownEvents(canon, posts);
    var id' :| id' in asked && id' != "" && Yields(asked, known, load, id', e);
    YieldIsNamed(canon, posts, load, store, asked, id', e);
    AskedIsCanonical(canon, posts, r, id');
    OneCanonicalName(canon, id, id', e);
  }

  /** An id is emitted exactly if it was asked for and can be had. */
  lemma EmittedIff(canon: Canon, posts: seq<Event>, load: Loader, store: map<string, Event>, r: References, id: string)
    requires Idempotent(canon) && Faithful(canon, load, store) && IdsOf(canon, posts, r)
    requires EventsOf(canon, posts, load, r)
    requires canon(id) == id
    ensures Emitted(canon, r, id) <==> id in r.quotes + r.others + r.nested && CanBeHad(canon, posts, store, id)
  {
    var direct := r.quotes + r.others;
    if Emitted(canon, r, id) {
      var e :| e in r.Referenced() && Names(canon, id, e);
      var asked, events := if e in r.direct then direct else r.nested, if e in r.direct then r.direct else r.deeper;
      ResolvedIsAsked(canon, posts, load, store, r, asked, events, id, e);
      AskedCanBeHad(canon, posts, load, store, r, asked, events, id, e);
    }
    if id in direct + r.nested && CanBeHad(canon, posts, store, id) {
      var asked := if id in direct then direct else r.nested;
      assert id in asked && id != "";
      YieldsIff(canon, KnownEvents(canon, posts), load, store, asked, id);
      var e :| Yields(asked, KnownEvents(canon, posts), load, id, e);
      YieldIsNamed(canon, posts, load, store, asked, id, e);
      assert e in r.Referenced();
    }
  }

  lemma AskedCanBeHad(canon: Canon, posts: seq<Event>, load: Loader, store: map<string, Event>, r: References,
                      asked: seq<string>, events: seq<Event>, id: string, e: Event)
    requires Idempotent(canon) && Faithful(canon, load, store) && IdsOf(canon, posts, r)
    requires forall i :: i in asked ==> i in r.quotes + r.others + r.nested
    requires Resolves(asked, KnownEvents(canon, posts), load, events) && e in events
    requires canon(id) == id && Names(canon, id, e)
    ensures CanBeHad(canon, posts, store, id)
  {
    var known := KnownEvents(canon, posts);
    var id' :| id' in asked && id' != "" && Yields(asked, known, load, id', e);
    YieldIsNamed(canon, posts, load, store, asked, id', e);
    AskedIsCanonical(canon, posts, r, id');
    OneCanonicalName(canon, id, id', e);
    YieldsIff(canon, KnownEvents(canon, posts), load, store, asked, id);
  }

  /**
   * Below the budget a quote in a post or a repost is emitted exactly if it can be had, also of an event on the page.
   */
  lemma DirectQuoteIsEmittedIff(canon: Canon, posts: seq<Event>, load: Loader, store: map<string, Event>, r: References,
                                q: string)
    requires Idempotent(canon) && Faithful(canon, load, store) && IdsOf(canon, posts, r)
    requires EventsOf(canon, posts, load, r)
    requires q in QuoteList(posts + Inners(posts)) && canon(q) != "" && |r.quotes| < MAX_QUOTES
    ensures Emitted(canon, r, canon(q)) <==> CanBeHad(canon, posts, store, canon(q))
  {
    assert canon(canon(q)) == canon(q);
    EmittedIff(canon, posts, load, store, r, canon(q));
    assert canon(q) in r.quotes;
  }

  /**
   * Below the budget a quote inside a referenced event is emitted exactly if it can be had and is not of a post of the
   * page, unless the page quotes that post itself.
   */
  lemma NestedQuoteIsEmittedIff(canon: Canon, posts: seq<Event>, load: Loader, store: map<string, Event>, r: References,
                                q: string)
    requires Idempotent(canon) && Faithful(canon, load, store) && IdsOf(canon, posts, r)
    requires EventsOf(canon, posts, load, r)
    requires q in QuoteList(r.direct) && canon(q) != "" && |r.quotes| + |r.nested| < MAX_QUOTES
    ensures Emitted(canon, r, canon(q)) <==>
            (canon(q) in r.quotes || canon(q) !in PageIds(canon, posts)) && CanBeHad(canon, posts, store, canon(q))
  {
    var id := canon(q);
    assert canon(id) == id;
    EmittedIff(canon, posts, load, store, r, id);
    if id !in PageIds(canon, posts) && id !in r.quotes + r.others + r.nested {
      assert id in PageIds(canon, r.direct);
      var e :| e in r.direct && e.id != "" && (e.id == id || canon(e.id) == id);
      ResolvedIsAsked(canon, posts, load, store, r, r.quotes + r.others, r.direct, id, e);
    }
  }

  /** A quote that names an event of the page is emitted from the page. */
  lemma QuotedPageEventIsEmitted(canon: Canon, posts: seq<Event>, load: Loader, r: References, id: string, e: Event)
    requires EventsOf(canon, posts, load, r) && id in r.quotes && id != "" && e in posts + Inners(posts)
    requires Names(canon, id, e)
    ensures exists f :: f in r.direct && f in posts + Inners(posts) && Names(canon, id, f)
  {
    KnownIsThePage(canon, posts);
    var known := KnownEvents(canon, posts);
    assert id in r.quotes + r.others && Yields(r.quotes + r.others, known, load, id, known[id]);
    assert known[id] in r.direct && Names(canon, id, known[id]);
  }

  // A page of two posts, the first of which quotes an event of the store that quotes the second.

  const FIRST_POST := Event("a", "", [["q", "x"]], [], None)
  const SECOND_POST := Event("b", "", [], [], None)
  const STORED := Event("x", "", [["q", "b"]], [], None)

  function Plain(s: string): string {
    s
  }

  function LoadStored(ids: seq<string>): map<string, Event> {
    map id | id in ids && id == "x" :: STORED
  }

  lemma {:induction false} QuoteListHas(events: seq<Event>, e: Event, q: string)
    requires e in events && q in QuotesOf(e)
    ensures q in QuoteList(events)
  {
    if e != events[|events| - 1] {
      assert e in events[..|events| - 1];
      QuoteListHas(events[..|events| - 1], e, q);
    }
  }

  lemma QuotesOne(id: string, target: string)
    ensures QuotesOf(Event(id, "", [["q", target]], [], None)) == [target]
  {
    var tags := [["q", target]];
    assert Lower("q") == "q";
    assert TagQuote(tags[0]) == [target];
    assert tags[..0] == [];
    assert TagQuotes(tags) == TagQuotes(tags[..0]) + TagQuote(tags[0]) == [target];
  }

  lemma ExamplePage()
    ensures var posts := [FIRST_POST, SECOND_POST];
            && Inners(posts) == [] && QuoteList(posts + Inners(posts)) == ["x"] && "b" in PageIds(Plain, posts)
            && "x" !in KnownEvents(Plain, posts) && QuotesOf(STORED) == ["b"]
  {
    var posts := [FIRST_POST, SECOND_POST];
    assert posts[..1] == [FIRST_POST] && [FIRST_POST][..0] == [];
    assert Inners([FIRST_POST]) == [];
    assert posts + Inners(posts) == posts;
    QuotesOne("a", "x");
    QuotesOne("x", "b");
    assert QuotesOf(SECOND_POST) == [];
    assert QuoteList([FIRST_POST]) == [] + QuotesOf(FIRST_POST);
    assert SECOND_POST in posts && SECOND_POST.id == "b";
    KnownIsThePage(Plain, posts);
  }

  lemma OneQuote(refs: seq<string>, quotes: seq<string>, x: string)
    requires refs == [x] && Distinct(quotes) && TakenFrom(Plain, refs, quotes) && x != ""
    requires |quotes| < MAX_QUOTES ==> TakesAll(Plain, refs, {}, quotes)
    ensures quotes == [x]
  {
    assert |quotes| > 1 ==> quotes[0] != quotes[1];
    forall i | 0 <= i < |quotes| ensures quotes[i] == x {
      assert quotes[i] in quotes;
    }
    assert x in refs && Plain(x) == x;
  }

  lemma DistinctFirst(a: seq<string>, b: seq<string>, c: seq<string>)
    requires Distinct(a + b + c)
    ensures Distinct(a)
  {
    assert forall i :: 0 <= i < |a| ==> (a + b + c)[i] == a[i];
  }

  lemma OnlyQuote(posts: seq<Event>, r: References, x: string)
    requires IdsOf(Plain, posts, r) && QuoteList(posts + Inners(posts)) == [x] && x != ""
    ensures r.quotes == [x]
  {
    DistinctFirst(r.quotes, r.others, r.nested);
    OneQuote(QuoteList(posts + Inners(posts)), r.quotes, x);
  }

  lemma ExampleDirect(r: References)
    requires var posts := [FIRST_POST, SECOND_POST]; IdsOf(Plain, posts, r) && EventsOf(Plain, posts, LoadStored, r)
    ensures STORED in r.direct
  {
    ExamplePage();
    OnlyQuote([FIRST_POST, SECOND_POST], r, "x");
    var asked, known := r.quotes + r.others, KnownEvents(Plain, [FIRST_POST, SECOND_POST]);
    assert asked[0] == "x";
    MissingIff(asked, known, "x");
    assert Yields(asked, known, LoadStored, "x", STORED);
  }

  lemma ExampleStore()
    ensures Faithful(Plain, LoadStored, map["x" := STORED])
  {
    var store := map["x" := STORED];
    forall ids ensures LoadStored(ids) == map id | id in ids && id in store :: store[id] {
    }
  }

  /** On that page the second post is quoted, inside a mention, but does not come as a mention itself. */
  lemma NestedQuoteOfPostExample(r: References)
    requires var posts := [FIRST_POST, SECOND_POST]; IdsOf(Plain, posts, r) && EventsOf(Plain, posts, LoadStored, r)
    ensures "b" in QuoteList(r.direct) && "b" in PageIds(Plain, [FIRST_POST, SECOND_POST]) && !Emitted(Plain, r, "b")
  {
    ExamplePage();
    OnlyQuote([FIRST_POST, SECOND_POST], r, "x");
    ExampleDirect(r);
    QuoteListHas(r.direct, STORED, "b");
    ExampleStore();
    EmittedIff(Plain, [FIRST_POST, SECOND_POST], LoadStored, map["x" := STORED], r, "b");
  }

  // ---------------------------------------------------------------- authors

  /** `out` is `ids` and after it the first new ones among `refs`, as far as the limit allows. */
  ghost predicate Appends(canon: Canon, refs: seq<string>, limit: nat, ids: seq<string>, out: seq<string>) {
    |out| <= (if |ids| < limit then limit else |ids|) && exists at :: TakenInOrder(canon, refs, {}, limit, ids, out, at)
  }

  lemma PickAppends(canon: Canon, refs: seq<string>, limit: nat, ids: seq<string>)
    ensures Appends(canon, refs, limit, ids, Pick(canon, refs, {}, limit, ids))
  {
    var at := PickInOrder(canon, refs, {}, limit, ids);
    if |ids| >= limit {
      FullPickStops(canon, refs, {}, limit, ids);
    }
  }

  lemma PickListsAll(norm: Canon, refs: seq<string>, limit: nat, ids: seq<string>)
    requires CleanIds(ids, {}) && |ids| + |refs| < limit
    ensures var out := Pick(norm, refs, {}, limit, ids);
            && ids <= out && Listed(norm, refs, out)
            && (forall a :: a in out ==> a in ids || Required(norm, refs, a))
  {
    PickProperties(norm, refs, {}, limit, ids);
    PickRoomy(norm, refs, limit, limit, ids);
  }

  lemma PickTakesAll(norm: Canon, refs: seq<string>, limit: nat, ids: seq<string>)
    requires CleanIds(ids, {}) && |ids| + |refs| < limit
    ensures var out := Pick(norm, refs, {}, limit, ids);
            ids <= out && forall a :: a in out <==> a in ids || (a != "" && exists p :: p in refs && norm(p) == a)
  {
    PickListsAll(norm, refs, limit, ids);
    PickProperties(norm, refs, {}, limit, ids);
  }

  lemma PickFillsUp(norm: Canon, refs: seq<string>, limit: nat, ids: seq<string>)
    requires CleanIds(ids, {})
    ensures var out := Pick(norm, refs, {}, limit, ids);
            && ids <= out && Appends(norm, refs, limit, ids, out)
            && (forall a :: a in out ==> a in ids || exists p :: p in refs && norm(p) == a)
            && (|out| < limit ==> forall p :: p in refs && norm(p) != "" ==> norm(p) in out)
  {
    PickProperties(norm, refs, {}, limit, ids);
    PickAppends(norm, refs, limit, ids);
  }

  /** The author list of a page; `norm` trims and lowers a pubkey. */
  class AuthorList {
    var out: seq<string>
    var seen: set<string>

    ghost predicate Valid()
      reads this
    {
      seen == (set a | a in out) && Distinct(out) && "" !in out && |seen| == |out|
    }

    constructor ()
      ensures Valid() && out == []
    {
      out, seen := [], {};
    }

    method RememberPubkey(norm: Canon, pubkey: string, limit: int)
      requires Valid()
      modifies this
      ensures Valid()
      ensures out == if norm(pubkey) == "" || |old(out)| >= limit || norm(pubkey) in old(out) then old(out)
                     else old(out) + [norm(pubkey)]
    {
      var key := norm(pubkey);
      if key == "" || |seen| >= limit {
        return;
      }
      if key in seen {
        return;
      }
      seen := seen + {key};
      out := out + [key];
    }

    /** Authors that must not be dropped: the limit makes room for all of them. */
    method RememberPubkeys(norm: Canon, pubkeys: seq<string>)
      requires Valid()
      modifies this
      ensures Valid() && old(out) <= out
      ensures forall a :: a in out <==> a in old(out) || (a != "" && exists p :: p in pubkeys && norm(p) == a)
      ensures out == Pick(norm, pubkeys, {}, |old(out)| + |pubkeys| + 1, old(out))
    {
      var limit := if |seen| + |pubkeys| > MAX_AUTHORS then |seen| + |pubkeys| else MAX_AUTHORS;
      for i := 0 to |pubkeys|
        invariant Valid() && |out| <= |old(out)| + i
        invariant out == Pick(norm, pubkeys[..i], {}, |old(out)| + |pubkeys| + 1, old(out))
      {
        assert pubkeys[..i + 1][..i] == pubkeys[..i];
        RememberPubkey(norm, pubkeys[i], limit);
      }
      assert pubkeys[..|pubkeys|] == pubkeys;
      PickTakesAll(norm, pubkeys, |old(out)| + |pubkeys| + 1, old(out));
    }

    /** Authors that only fill up: nothing is added from the hundredth place on. */
    method RememberOptional(norm: Canon, pubkeys: seq<string>)
      requires Valid()
      modifies this
      ensures Valid() && old(out) <= out && |out| <= (if |old(out)| > MAX_AUTHORS then |old(out)| else MAX_AUTHORS)
      ensures forall a :: a in out ==> a in old(out) || exists p :: p in pubkeys && norm(p) == a
      ensures |out| < MAX_AUTHORS ==> forall p :: p in pubkeys && norm(p) != "" ==> norm(p) in out
      ensures Appends(norm, pubkeys, 100, old(out), out)
    {
      for i := 0 to |pubkeys|
        invariant Valid() && out == Pick(norm, pubkeys[..i], {}, MAX_AUTHORS, old(out))
      {
        assert pubkeys[..i + 1][..i] == pubkeys[..i];
        RememberPubkey(norm, pubkeys[i], MAX_AUTHORS);
      }
      assert pubkeys[..|pubkeys|] == pubkeys;
      PickFillsUp(norm, pubkeys, MAX_AUTHORS, old(out));
    }
  }

  /** Every non-blank author of the group is on the list. */
  ghost predicate Listed(norm: Canon, group: seq<string>, authors: seq<string>) {
    forall p :: p in group && norm(p) != "" ==> norm(p) in authors
  }

  ghost predicate Required(norm: Canon, mandatory: seq<string>, a: string) {
    exists p :: p in mandatory && norm(p) == a
  }

  ghost predicate InSome(norm: Canon, groups: seq<seq<string>>, a: string) {
    exists g :: g in groups && Required(norm, g, a)
  }

  /** Every author on the list comes from one of the groups. */
  ghost predicate OnlyFrom(norm: Canon, groups: seq<seq<string>>, authors: seq<string>) {
    forall a :: a in authors ==> InSome(norm, groups, a)
  }

  function Flat(groups: seq<seq<string>>): seq<string> {
    if groups == [] then [] else Flat(groups[..|groups| - 1]) + groups[|groups| - 1]
  }

  lemma {:induction false} FlatGrows(groups: seq<seq<string>>, k: nat)
    requires k <= |groups|
    ensures |Flat(groups[..k])| <= |Flat(groups)|
    decreases |groups|
  {
    if k < |groups| {
      FlatGrows(groups[..|groups| - 1], k);
      assert groups[..|groups| - 1][..k] == groups[..k];
    } else {
      assert groups[..k] == groups;
    }
  }

  /** A limit that cannot be reached makes no difference. */
  lemma {:induction false} PickRoomy(canon: Canon, refs: seq<string>, limit: nat, limit': nat, ids: seq<string>)
    requires |ids| + |refs| < limit && |ids| + |refs| < limit'
    ensures Pick(canon, refs, {}, limit, ids) == Pick(canon, refs, {}, limit', ids)
    ensures |Pick(canon, refs, {}, limit, ids)| <= |ids| + |refs|
    decreases |refs|
  {
    if refs != [] {
      PickRoomy(canon, refs[..|refs| - 1], limit, limit', ids);
    }
  }

  /** The list in three parts: post authors up to the hundredth, all mandatory authors, others up to the hundredth. */
  ghost predicate InThreeParts(norm: Canon, posts: seq<string>, mandatory: seq<string>, optional: seq<string>,
                               authors: seq<string>) {
    exists first, kept ::
      && Appends(norm, posts, 100, [], first)
      && Appends(norm, mandatory, |first| + |mandatory| + 1, first, kept)
      && Appends(norm, optional, 100, kept, authors)
  }

  lemma {:induction false} InFlat(groups: seq<seq<string>>, p: string)
    ensures p in Flat(groups) <==> exists g :: g in groups && p in g
  {
    if groups != [] {
      var front, last := groups[..|groups| - 1], groups[|groups| - 1];
      InFlat(front, p);
      assert forall g :: g in groups <==> g in front || g == last;
    }
  }

  /** The mandatory groups in turn, after the post authors. */
  method RememberMandatory(list: AuthorList, norm: Canon, mandatory: seq<seq<string>>)
    requires list.Valid()
    modifies list
    ensures list.Valid() && old(list.out) <= list.out
    ensures Appends(norm, Flat(mandatory), |old(list.out)| + |Flat(mandatory)| + 1, old(list.out), list.out)
    ensures Listed(norm, Flat(mandatory), list.out)
    ensures forall a :: a in list.out ==> a in old(list.out) || Required(norm, Flat(mandatory), a)
  {
    ghost var limit := |list.out| + |Flat(mandatory)| + 1;
    for k := 0 to |mandatory|
      invariant list.Valid() && |list.out| <= |old(list.out)| + |Flat(mandatory[..k])|
      invariant list.out == Pick(norm, Flat(mandatory[..k]), {}, limit, old(list.out))
    {
      ghost var before := list.out;
      list.RememberPubkeys(norm, mandatory[k]);
      NextGroup(norm, mandatory, k, limit, old(list.out), before);
    }
    assert mandatory[..|mandatory|] == mandatory;
    PickAppends(norm, Flat(mandatory), limit, old(list.out));
    PickListsAll(norm, Flat(mandatory), limit, old(list.out));
  }

  lemma NextGroup(norm: Canon, groups: seq<seq<string>>, k: nat, limit: nat, ids: seq<string>, before: seq<string>)
    requires k < |groups| && limit == |ids| + |Flat(groups)| + 1 && |before| <= |ids| + |Flat(groups[..k])|
    requires before == Pick(norm, Flat(groups[..k]), {}, limit, ids)
    ensures var after := Pick(norm, groups[k], {}, |before| + |groups[k]| + 1, before);
            && after == Pick(norm, Flat(groups[..k + 1]), {}, limit, ids)
            && |after| <= |ids| + |Flat(groups[..k + 1])|
  {
    assert groups[..k + 1][..k] == groups[..k];
    FlatGrows(groups, k + 1);
    PickRoomy(norm, groups[k], |before| + |groups[k]| + 1, limit, before);
    PickConcat(norm, Flat(groups[..k]), groups[k], {}, limit, ids);
  }

  lemma NewAreFrom(norm: Canon, group: seq<string>, before: seq<string>, after: seq<string>)
    requires before <= after && Distinct(after)
    requires forall a :: a in after ==> a in before || Required(norm, group, a)
    ensures forall i :: |before| <= i < |after| ==> Required(norm, group, after[i])
  {
    forall i | |before| <= i < |after| ensures Required(norm, group, after[i]) {
      assert forall j :: 0 <= j < |before| ==> before[j] == after[j] != after[i];
    }
  }

  lemma ListedInFlat(norm: Canon, groups: seq<seq<string>>, g: seq<string>, authors: seq<string>)
    requires g in groups && Listed(norm, Flat(groups), authors)
    ensures Listed(norm, g, authors)
  {
    forall p | p in g && norm(p) != "" ensures norm(p) in authors {
      InFlat(groups, p);
    }
  }

  lemma FromFlat(norm: Canon, groups: seq<seq<string>>, a: string)
    requires Required(norm, Flat(groups), a)
    ensures InSome(norm, groups, a)
  {
    var p :| p in Flat(groups) && norm(p) == a;
    InFlat(groups, p);
    var g :| g in groups && p in g;
    assert Required(norm, g, a);
  }

  /** Three spans of a list, each from its own groups. */
  lemma SpansAreFrom(norm: Canon, posts: seq<string>, mandatory: seq<seq<string>>, optional: seq<string>,
                     posters: seq<string>, kept: seq<string>, authors: seq<string>)
    requires posters <= kept <= authors
    requires forall a :: a in posters ==> Required(norm, posts, a)
    requires forall i :: |posters| <= i < |kept| ==> InSome(norm, mandatory, kept[i])
    requires forall i :: |kept| <= i < |authors| ==> Required(norm, optional, authors[i])
    ensures OnlyFrom(norm, [posts, optional] + mandatory, authors)
  {
    var groups := [posts, optional] + mandatory;
    assert groups[0] == posts && groups[1] == optional;
    assert posts in groups && optional in groups;
    forall a | a in authors ensures InSome(norm, groups, a) {
      var i :| 0 <= i < |authors| && authors[i] == a;
      if i < |posters| {
        assert posters[i] == a && Required(norm, posts, a);
      } else if i < |kept| {
        assert kept[i] == a && InSome(norm, mandatory, kept[i]);
        var g :| g in mandatory && Required(norm, g, a);
        assert g in groups;
      } else {
        assert Required(norm, optional, a);
      }
    }
  }

  /** What is said of the authors of a page. */
  ghost predicate AuthorsOf(norm: Canon, posts: seq<string>, mandatory: seq<seq<string>>, optional: seq<string>,
                            authors: seq<string>) {
    && Distinct(authors) && "" !in authors
    && InThreeParts(norm, posts, Flat(mandatory), optional, authors)
    && (forall g :: g in mandatory ==> Listed(norm, g, authors))
    && (forall i :: 100 <= i < |authors| ==> InSome(norm, mandatory, authors[i]))
    && (|authors| < 100 ==> Listed(norm, posts, authors) && Listed(norm, optional, authors))
    && OnlyFrom(norm, [posts, optional] + mandatory, authors)
  }

  lemma ListedStays(norm: Canon, group: seq<string>, authors: seq<string>, more: seq<string>)
    requires Listed(norm, group, authors) && authors <= more
    ensures Listed(norm, group, more)
  {
  }

  lemma BeyondHundredth(norm: Canon, mandatory: seq<seq<string>>, first: seq<string>, kept: seq<string>, authors: seq<string>)
    requires first <= kept <= authors && |first| <= 100 && |authors| <= (if |kept| < 100 then 100 else |kept|)
    requires forall i :: |first| <= i < |kept| ==> InSome(norm, mandatory, kept[i])
    ensures forall i :: 100 <= i < |authors| ==> InSome(norm, mandatory, authors[i])
  {
    assert forall i :: 100 <= i < |authors| ==> authors[i] == kept[i];
  }

  lemma GroupsAreListed(norm: Canon, mandatory: seq<seq<string>>, kept: seq<string>, authors: seq<string>)
    requires Listed(norm, Flat(mandatory), kept) && kept <= authors
    ensures forall g :: g in mandatory ==> Listed(norm, g, authors)
  {
    ListedStays(norm, Flat(mandatory), kept, authors);
    forall g | g in mandatory ensures Listed(norm, g, authors) {
      ListedInFlat(norm, mandatory, g, authors);
    }
  }

  lemma NewAreMandatory(norm: Canon, mandatory: seq<seq<string>>, first: seq<string>, kept: seq<string>)
    requires first <= kept && Distinct(kept) && forall a :: a in kept ==> a in first || Required(norm, Flat(mandatory), a)
    ensures forall i :: |first| <= i < |kept| ==> InSome(norm, mandatory, kept[i])
  {
    NewAreFrom(norm, Flat(mandatory), first, kept);
    forall i | |first| <= i < |kept| ensures InSome(norm, mandatory, kept[i]) {
      FromFlat(norm, mandatory, kept[i]);
    }
  }

  /**
   * The authors of a page: post authors up to the budget, then everyone an embed needs (the four mandatory groups in
   * turn), then p tags and other zap senders while there is room.  No mandatory author is ever lost, nobody else
   * stands beyond the hundredth place, and below it nobody is left out.
   */
  method CollectAuthors(norm: Canon, posts: seq<string>, mandatory: seq<seq<string>>, optional: seq<string>)
    returns (authors: seq<string>)
    ensures AuthorsOf(norm, posts, mandatory, optional, authors)
  {
    var list := new AuthorList();
    list.RememberOptional(norm, posts);
    ghost var first := list.out;
    RememberMandatory(list, norm, mandatory);
    ghost var kept := list.out;
    list.RememberOptional(norm, optional);
    authors := list.out;
    NewAreMandatory(norm, mandatory, first, kept);
    NewAreFrom(norm, optional, kept, authors);
    SpansAreFrom(norm, posts, mandatory, optional, first, kept, authors);
    BeyondHundredth(norm, mandatory, first, kept, authors);
    GroupsAreListed(norm, mandatory, kept, authors);
  }

  // ---------------------------------------------------------------- the page

  function Pubkeys(events: seq<Event>): seq<string> {
    seq(|events|, i requires 0 <= i < |events| => events[i].pubkey)
  }

  /** Every event of `events` comes with its author. */
  ghost predicate AuthorsThere(norm: Canon, events: seq<Event>, authors: seq<string>) {
    forall e :: e in events && norm(e.pubkey) != "" ==> norm(e.pubkey) in authors
  }

  lemma AuthorsListed(norm: Canon, events: seq<Event>, authors: seq<string>)
    requires Listed(norm, Pubkeys(events), authors)
    ensures AuthorsThere(norm, events, authors)
  {
    forall e | e in events && norm(e.pubkey) != "" ensures norm(e.pubkey) in authors {
      var i :| 0 <= i < |events| && events[i] == e;
      assert Pubkeys(events)[i] == e.pubkey;
    }
  }

  lemma FlatFour(a: seq<string>, b: seq<string>, c: seq<string>, d: seq<string>)
    ensures Flat([a, b, c, d]) == a + b + c + d
  {
    assert [a, b, c, d][..3] == [a, b, c] && [a, b, c][..2] == [a, b] && [a, b][..1] == [a] && [a][..0] == [];
    assert Flat([a]) == a;
    assert Flat([a, b]) == a + b;
    assert Flat([a, b, c]) == a + b + c;
  }

  lemma InOneGroup(norm: Canon, a: seq<string>, b: seq<string>, c: seq<string>, d: seq<string>, author: string)
    requires exists g :: g in [a, b, c, d] && Required(norm, g, author)
    ensures Required(norm, a + b + c + d, author)
  {
    var g :| g in [a, b, c, d] && Required(norm, g, author);
    var p :| p in g && norm(p) == author;
    assert p in a + b + c + d;
  }

  /**
   * What the caps are for: however many authors a page has, every embed on it can be rendered.  The author of every
   * reposted and every referenced event, every author a quote names and every top zap sender is on the list.
   */
  method CollectPage(canon: Canon, key: Canon, norm: Canon, posts: seq<Event>, load: Loader, topZaps: seq<string>,
                     otherZaps: seq<string>) returns (r: References, authors: seq<string>)
    ensures IdsOf(canon, posts, r) && EventsOf(canon, posts, load, r) && QuoteAuthorsOf(key, posts, r)
    ensures OrderOf(canon, posts, r)
    ensures Distinct(authors)
    ensures AuthorsThere(norm, Inners(posts), authors) && AuthorsThere(norm, r.Referenced(), authors)
    ensures Listed(norm, r.quoteAuthors, authors) && Listed(norm, topZaps, authors)
    ensures |authors| < 100 ==> Listed(norm, Pubkeys(posts) + TargetList(posts, "p") + otherZaps, authors)
    ensures OnlyFrom(norm, [Pubkeys(posts), TargetList(posts, "p") + otherZaps, Pubkeys(Inners(posts)), r.quoteAuthors,
                            Pubkeys(r.Referenced()), topZaps], authors)
    ensures InThreeParts(norm, Pubkeys(posts), Pubkeys(Inners(posts)) + r.quoteAuthors + Pubkeys(r.Referenced()) + topZaps,
                         TargetList(posts, "p") + otherZaps, authors)
    ensures forall i :: 100 <= i < |authors| ==>
              Required(norm, Pubkeys(Inners(posts)) + r.quoteAuthors + Pubkeys(r.Referenced()) + topZaps, authors[i])
  {
    r := CollectReferences(canon, key, posts, load);
    var inners, referenced := Pubkeys(Inners(posts)), Pubkeys(r.Referenced());
    var optional := TargetList(posts, "p") + otherZaps;
    authors := CollectAuthors(norm, Pubkeys(posts), [inners, r.quoteAuthors, referenced, topZaps], optional);
    FourGroups(norm, Pubkeys(posts), inners, r.quoteAuthors, referenced, topZaps, optional, authors);
    AuthorsListed(norm, Inners(posts), authors);
    AuthorsListed(norm, r.Referenced(), authors);
    ListedTogether(norm, Pubkeys(posts), TargetList(posts, "p"), otherZaps, authors);
  }

  lemma ListedTogether(norm: Canon, a: seq<string>, b: seq<string>, c: seq<string>, authors: seq<string>)
    ensures Listed(norm, a, authors) && Listed(norm, b + c, authors) ==> Listed(norm, a + b + c, authors)
  {
  }

  lemma FourGroups(norm: Canon, posts: seq<string>, a: seq<string>, b: seq<string>, c: seq<string>, d: seq<string>,
                   optional: seq<string>, authors: seq<string>)
    requires AuthorsOf(norm, posts, [a, b, c, d], optional, authors)
    ensures Distinct(authors)
    ensures Listed(norm, a, authors) && Listed(norm, b, authors) && Listed(norm, c, authors) && Listed(norm, d, authors)
    ensures |authors| < 100 ==> Listed(norm, posts, authors) && Listed(norm, optional, authors)
    ensures OnlyFrom(norm, [posts, optional, a, b, c, d], authors)
    ensures InThreeParts(norm, posts, a + b + c + d, optional, authors)
    ensures forall i :: 100 <= i < |authors| ==> Required(norm, a + b + c + d, authors[i])
  {
    var groups := [a, b, c, d];
    FlatFour(a, b, c, d);
    assert [posts, optional] + groups == [posts, optional, a, b, c, d];
    assert groups[0] == a && groups[1] == b && groups[2] == c && groups[3] == d;
    assert a in groups && b in groups && c in groups && d in groups;
    forall i | 100 <= i < |authors| ensures Required(norm, a + b + c + d, authors[i]) {
      InOneGroup(norm, a, b, c, d, authors[i]);
    }
  }
}
