/**
 * Moderation of a response stream (`moderatePrimalEvents` in
 * internal/api_primal/primal_v1_moderate.go): drop deleted events and events of muted authors, prune muted
 * pubkeys from the per-user maps, and keep the closing range marker in step with what is left.
 */
module Moderation {
  import opened Common

  const KIND_USER_SCORE: int := 10000108
  const KIND_RANGE: int := 10000113
  const KIND_DIRECT_MSG_COUNTS: int := 10000118
  const KIND_USER_FOLLOWERS: int := 10000133

  /** An entry of a JSON list. */
  datatype Element = Text(s: string) | NotText

  /** A JSON value, as far as moderation looks into it. */
  datatype Value = List(elements: seq<Element>) | Scalar(text: string)

  /** The content of an object: a JSON object, or anything else. */
  datatype Content = NotObject(text: string) | Object(fields: map<string, Value>)

  /**
   * An item of the stream: a raw event, an object built by the gateway, or something without identity.
   * `id` is trimmed and `pubkey` trimmed and lower-case; both are empty when absent.
   */
  datatype Item =
    | Raw(id: string, pubkey: string, text: string)
    | Obj(id: string, pubkey: string, kind: Option<int>, content: Content)
    | Bare(text: string)

  function Id(e: Item): string {
    if e.Bare? then "" else e.id
  }

  function Pubkey(e: Item): string {
    if e.Bare? then "" else e.pubkey
  }

  /** The viewer's mutes, the author whose own page this is, and the deletion records (none if they cannot be read). */
  datatype Rules = Rules(muted: set<string>, exempt: string, deletions: set<string>)

  // ---------------------------------------------------------------- specification

  function Ids(events: seq<Item>): set<string> {
    set e | e in events && Id(e) != "" :: Id(e)
  }

  /** The records looked up are those of the events on the page. */
  function Deleted(r: Rules, events: seq<Item>): set<string> {
    Ids(events) * r.deletions
  }

  predicate Banned(r: Rules, deleted: set<string>, e: Item) {
    || (Id(e) != "" && Id(e) in deleted)
    || (Pubkey(e) != "" && Pubkey(e) != r.exempt && Pubkey(e) in r.muted)
  }

  function Survivors(r: Rules, deleted: set<string>, events: seq<Item>): seq<Item> {
    if events == [] then []
    else
      var rest, last := Survivors(r, deleted, events[..|events| - 1]), events[|events| - 1];
      if Banned(r, deleted, last) then rest else rest + [PruneMap(last, r.muted)]
  }

  predicate IsPubkeyMap(e: Item) {
    e.Obj? && e.content.Object? &&
    (e.kind == Some(KIND_USER_SCORE) || e.kind == Some(KIND_USER_FOLLOWERS) || e.kind == Some(KIND_DIRECT_MSG_COUNTS))
  }

  function PruneMap(e: Item, muted: set<string>): Item {
    if !IsPubkeyMap(e) then e
    else e.(content := Object(map k | k in e.content.fields && Lower(k) !in muted :: e.content.fields[k]))
  }

  predicate IsRange(e: Item) {
    e.Obj? && e.kind == Some(KIND_RANGE) && e.content.Object? &&
    "elements" in e.content.fields && e.content.fields["elements"].List?
  }

  function ElementId(x: Element): string {
    if x.Text? then x.s else ""
  }

  predicate Gone(x: Element, original: set<string>, present: set<string>, deleted: set<string>) {
    ElementId(x) in deleted || (ElementId(x) in original && ElementId(x) !in present)
  }

  /** What is left of the range: ids of the page only if still present, every other entry unless deleted. */
  function KeptElements(xs: seq<Element>, original: set<string>, present: set<string>,
                        deleted: set<string>): seq<Element> {
    if xs == [] then []
    else
      var rest, last := KeptElements(xs[..|xs| - 1], original, present, deleted), xs[|xs| - 1];
      if Gone(last, original, present, deleted) then rest else rest + [Text(ElementId(last))]
  }

  function PruneRange(events: seq<Item>, original: set<string>, deleted: set<string>): seq<Item> {
    if events == [] || !IsRange(events[|events| - 1]) then events
    else
      var last := events[|events| - 1];
      var kept := KeptElements(last.content.fields["elements"].elements, original, Ids(events), deleted);
      events[..|events| - 1] + [last.(content := Object(last.content.fields["elements" := List(kept)]))]
  }

  function Moderated(r: Rules, events: seq<Item>): seq<Item> {
    var deleted := Deleted(r, events);
    PruneRange(Survivors(r, deleted, events), Ids(events), deleted)
  }

  // ---------------------------------------------------------------- what moderation promises

  /** A deleted event, or one of a muted author other than the exempt one. */
  ghost predicate Removed(r: Rules, e: Item) {
    && !e.Bare?
    && ((e.id != "" && e.id in r.deletions) || (e.pubkey != "" && e.pubkey != r.exempt && e.pubkey in r.muted))
  }

  /** User scores, direct message counts or followers, by pubkey. */
  ghost predicate PerUserMap(e: Item) {
    e.Obj? && e.content.Object? && e.kind.Some? && e.kind.value in {10000108, 10000118, 10000133}
  }

  ghost predicate MapPruned(e: Item, out: Item, muted: set<string>)
    requires PerUserMap(e)
  {
    && PerUserMap(out) && out.id == e.id && out.pubkey == e.pubkey && out.kind == e.kind
    && (forall k :: k in out.content.fields <==> k in e.content.fields && Lower(k) !in muted)
    && (forall k :: k in out.content.fields ==> out.content.fields[k] == e.content.fields[k])
  }

  ghost predicate RangeItem(e: Item) {
    && e.Obj? && e.kind == Some(10000113) && e.content.Object?
    && "elements" in e.content.fields && e.content.fields["elements"].List?
  }

  ghost predicate Listed(events: seq<Item>, id: string) {
    id != "" && exists e :: e in events && !e.Bare? && e.id == id
  }

  /** The entries that do not name an event of the page that is gone, in order; an entry that is no text is blank. */
  ghost predicate RangePruned(events: seq<Item>, out: seq<Item>, xs: seq<Element>, kept: seq<Element>, at: seq<nat>) {
    && Increasing(at, |xs|) && |at| == |kept|
    && (forall m :: 0 <= m < |kept| ==> kept[m] == Text(if xs[at[m]].Text? then xs[at[m]].s else ""))
    && (forall n :: 0 <= n < |xs| ==> (n in at <==> !(xs[n].Text? && Listed(events, xs[n].s) && !Listed(out, xs[n].s))))
  }

  /** What becomes of the item `e` that stays. */
  ghost predicate ItemKept(r: Rules, events: seq<Item>, out: seq<Item>, j: nat, e: Item)
    requires j < |out|
  {
    if PerUserMap(e) then MapPruned(e, out[j], r.muted)
    else if j == |out| - 1 && RangeItem(e) then
      exists kept, at ::
        && out[j] == e.(content := Object(e.content.fields["elements" := List(kept)]))
        && RangePruned(events, out, e.content.fields["elements"].elements, kept, at)
    else out[j] == e
  }

  /** Exactly the removed items are gone; the others are there in order, `o` saying where they come from. */
  ghost predicate ModeratedAs(r: Rules, events: seq<Item>, out: seq<Item>, o: seq<nat>) {
    && Increasing(o, |events|) && |o| == |out|
    && (forall i :: 0 <= i < |events| ==> (i in o <==> !Removed(r, events[i])))
    && (forall j :: 0 <= j < |out| ==> ItemKept(r, events, out, j, events[o[j]]))
  }

  // ---------------------------------------------------------------- the passes

  method PrunePubkeyMap(e: Item, muted: set<string>) returns (out: Item)
    ensures out == PruneMap(e, muted)
    ensures if PerUserMap(e) then MapPruned(e, out, muted) else out == e
  {
    if |muted| == 0 || !IsPubkeyMap(e) {
      assert IsPubkeyMap(e) ==> e.content.fields == map k | k in e.content.fields && Lower(k) !in muted :: e.content.fields[k];
      return e;
    }
    var body := e.content.fields;
    var todo := body.Keys;
    while todo != {}
      invariant todo <= e.content.fields.Keys
      invariant body == map k | k in e.content.fields && (k in todo || Lower(k) !in muted) :: e.content.fields[k]
      decreases |todo|
    {
      var k :| k in todo;
      if Lower(k) in muted {
        body := body - {k};
      }
      todo := todo - {k};
    }
    assert body == map k | k in e.content.fields && Lower(k) !in muted :: e.content.fields[k];
    return e.(content := Object(body));
  }

  method EventIds(events: seq<Item>) returns (ids: set<string>)
    ensures ids == Ids(events)
  {
    ids := {};
    for i := 0 to |events|
      invariant ids == Ids(events[..i])
    {
      assert events[..i + 1] == events[..i] + [events[i]];
      if Id(events[i]) != "" {
        ids := ids + {Id(events[i])};
      }
    }
    assert events[..|events|] == events;
  }

  method PruneRangeElements(events: seq<Item>, original: set<string>, deleted: set<string>) returns (out: seq<Item>)
    ensures out == PruneRange(events, original, deleted)
  {
    var present := EventIds(events);
    if |events| == 0 || !IsRange(events[|events| - 1]) {
      return events;
    }
    var last := events[|events| - 1];
    var raw := last.content.fields["elements"].elements;
    var kept: seq<Element> := [];
    for i := 0 to |raw|
      invariant kept == KeptElements(raw[..i], original, present, deleted)
    {
      assert raw[..i + 1][..i] == raw[..i];
      var id := ElementId(raw[i]);
      if id !in deleted && !(id in original && id !in present) {
        kept := kept + [Text(id)];
      }
    }
    assert raw[..|raw|] == raw;
    return events[..|events| - 1] + [last.(content := Object(last.content.fields["elements" := List(kept)]))];
  }

  method ModeratePrimalEvents(r: Rules, events: seq<Item>) returns (out: seq<Item>, ghost o: seq<nat>)
    ensures out == Moderated(r, events) && ModeratedAs(r, events, out, o)
  {
    var original := EventIds(events);
    var deleted := original * r.deletions;
    var kept: seq<Item> := [];
    for i := 0 to |events|
      invariant kept == Survivors(r, deleted, events[..i])
    {
      var e := events[i];
      assert events[..i + 1][..i] == events[..i];
      if Id(e) != "" && Id(e) in deleted {
        continue;
      }
      if Pubkey(e) != "" && Pubkey(e) != r.exempt && Pubkey(e) in r.muted {
        continue;
      }
      var pruned := PrunePubkeyMap(e, r.muted);
      kept := kept + [pruned];
    }
    assert events[..|events|] == events;
    out := PruneRangeElements(kept, original, deleted);
    o := Origins(r, deleted, events);
    ModerationIs(r, events);
  }

  // ---------------------------------------------------------------- what is left

  /** The positions of the items that stay. */
  function Origins(r: Rules, deleted: set<string>, events: seq<Item>): seq<nat> {
    if events == [] then []
    else
      var rest := Origins(r, deleted, events[..|events| - 1]);
      if Banned(r, deleted, events[|events| - 1]) then rest else rest + [|events| - 1]
  }

  ghost predicate Increasing(o: seq<nat>, n: nat) {
    (forall j :: 0 <= j < |o| ==> o[j] < n) && (forall j, k :: 0 <= j < k < |o| ==> o[j] < o[k])
  }

  /** The survivors are exactly the items that are not banned, in order, with their maps pruned. */
  lemma {:induction false} SurvivorsAre(r: Rules, deleted: set<string>, events: seq<Item>)
    ensures var o, out := Origins(r, deleted, events), Survivors(r, deleted, events);
            && Increasing(o, |events|) && |o| == |out|
            && (forall j :: 0 <= j < |o| ==> out[j] == PruneMap(events[o[j]], r.muted))
            && (forall i :: 0 <= i < |events| ==> (i in o <==> !Banned(r, deleted, events[i])))
    decreases |events|
  {
    if events != [] {
      var front := events[..|events| - 1];
      SurvivorsAre(r, deleted, front);
      var o, o' := Origins(r, deleted, front), Origins(r, deleted, events);
      forall i | 0 <= i < |events| ensures i in o' <==> !Banned(r, deleted, events[i]) {
        assert i < |front| ==> front[i] == events[i];
        assert i == |front| ==> i !in o;
      }
    }
  }

  lemma PruneMapKeepsIdentity(e: Item, muted: set<string>)
    ensures Id(PruneMap(e, muted)) == Id(e) && Pubkey(PruneMap(e, muted)) == Pubkey(e)
    ensures PruneMap(PruneMap(e, muted), muted) == PruneMap(e, muted)
    ensures IsRange(PruneMap(e, muted)) == IsRange(e) && (IsRange(e) ==> PruneMap(e, muted) == e)
  {
    if IsPubkeyMap(e) {
      var p := PruneMap(e, muted);
      assert PruneMap(p, muted).content.fields == p.content.fields;
    }
  }

  /** An item of the output next to the item it comes from: the same, but for a pruned map or a pruned range. */
  ghost predicate Derived(out: Item, e: Item, muted: set<string>, isLast: bool) {
    || out == PruneMap(e, muted)
    || (isLast && IsRange(e) && IsRange(out) &&
        out == e.(content := Object(e.content.fields["elements" := out.content.fields["elements"]])))
  }

  /**
   * The output is the stream without its banned items, in order; no item of it has a deleted id or a muted
   * author other than the exempt one, and nothing else was dropped.
   */
  lemma ModeratedIsSubsequence(r: Rules, events: seq<Item>)
    ensures var o, out := Origins(r, Deleted(r, events), events), Moderated(r, events);
            && Increasing(o, |events|) && |o| == |out|
            && (forall i :: 0 <= i < |events| ==> (i in o <==> !Banned(r, Deleted(r, events), events[i])))
            && (forall j :: 0 <= j < |out| ==> Derived(out[j], events[o[j]], r.muted, j == |out| - 1))
            && (forall j :: 0 <= j < |out| ==> Id(out[j]) == Id(events[o[j]]) && !Banned(r, Deleted(r, events), out[j]))
  {
    var deleted := Deleted(r, events);
    SurvivorsAre(r, deleted, events);
    var o, kept, out := Origins(r, deleted, events), Survivors(r, deleted, events), Moderated(r, events);
    forall j | 0 <= j < |out|
      ensures Derived(out[j], events[o[j]], r.muted, j == |out| - 1)
      ensures Id(out[j]) == Id(events[o[j]]) && !Banned(r, deleted, out[j])
    {
      PruneMapKeepsIdentity(events[o[j]], r.muted);
      assert kept[j] == PruneMap(events[o[j]], r.muted);
      assert o[j] in o;
    }
  }

  lemma IdsOfModerated(r: Rules, events: seq<Item>)
    ensures var kept := Survivors(r, Deleted(r, events), events);
            Ids(Moderated(r, events)) == Ids(kept) && Ids(kept) <= Ids(events) && Ids(kept) !! Deleted(r, events)
  {
    var deleted := Deleted(r, events);
    var kept, out := Survivors(r, deleted, events), Moderated(r, events);
    SameIds(kept, out);
    SurvivorsAre(r, deleted, events);
    forall e | e in kept && Id(e) != "" ensures Id(e) in Ids(events) && Id(e) !in deleted {
      var j :| 0 <= j < |kept| && kept[j] == e;
      var o := Origins(r, deleted, events);
      PruneMapKeepsIdentity(events[o[j]], r.muted);
      assert events[o[j]] in events && o[j] in o;
    }
  }

  lemma SameIds(a: seq<Item>, b: seq<Item>)
    requires |a| == |b| && forall i :: 0 <= i < |a| ==> Id(a[i]) == Id(b[i])
    ensures Ids(a) == Ids(b)
  {
    forall e | e in a && Id(e) != "" ensures Id(e) in Ids(b) {
      var i :| 0 <= i < |a| && a[i] == e;
      assert b[i] in b;
    }
    forall e | e in b && Id(e) != "" ensures Id(e) in Ids(a) {
      var i :| 0 <= i < |b| && b[i] == e;
      assert a[i] in a;
    }
  }

  lemma {:induction false} KeptElementsAre(xs: seq<Element>, original: set<string>, present: set<string>,
                                           deleted: set<string>)
    ensures forall x :: x in KeptElements(xs, original, present, deleted) <==>
                        x.Text? && exists y :: y in xs && ElementId(y) == x.s && !Gone(y, original, present, deleted)
    decreases |xs|
  {
    if xs != [] {
      KeptElementsAre(xs[..|xs| - 1], original, present, deleted);
      assert xs == xs[..|xs| - 1] + [xs[|xs| - 1]];
    }
  }

  /** The id lists of the range marker before and after. */
  function RangeOf(events: seq<Item>): Option<seq<Element>> {
    if events != [] && IsRange(events[|events| - 1])
    then Some(events[|events| - 1].content.fields["elements"].elements)
    else None
  }

  /**
   * If the stream that is left ends in a range, that range lists an id exactly if it listed it before and it is not
   * the id of an event that went missing from the page.
   */
  lemma RangeIsConsistent(r: Rules, events: seq<Item>, id: string)
    requires RangeOf(Survivors(r, Deleted(r, events), events)).Some?
    ensures var before, out := RangeOf(Survivors(r, Deleted(r, events), events)), Moderated(r, events);
            && RangeOf(out).Some?
            && (Text(id) in RangeOf(out).value <==>
                 (exists y :: y in before.value && ElementId(y) == id) && (id in Ids(events) ==> id in Ids(out)))
  {
    var deleted := Deleted(r, events);
    var kept := Survivors(r, deleted, events);
    IdsOfModerated(r, events);
    KeptElementsAre(RangeOf(kept).value, Ids(events), Ids(kept), deleted);
  }

  /** The positions of the range entries that stay. */
  function KeptAt(xs: seq<Element>, original: set<string>, present: set<string>, deleted: set<string>): seq<nat> {
    if xs == [] then []
    else
      var rest := KeptAt(xs[..|xs| - 1], original, present, deleted);
      if Gone(xs[|xs| - 1], original, present, deleted) then rest else rest + [|xs| - 1]
  }

  lemma {:induction false} KeptInOrder(xs: seq<Element>, original: set<string>, present: set<string>, deleted: set<string>)
    ensures var at, kept := KeptAt(xs, original, present, deleted), KeptElements(xs, original, present, deleted);
            && Increasing(at, |xs|) && |at| == |kept|
            && (forall m :: 0 <= m < |kept| ==> kept[m] == Text(ElementId(xs[at[m]])))
            && (forall n :: 0 <= n < |xs| ==> (n in at <==> !Gone(xs[n], original, present, deleted)))
    decreases |xs|
  {
    if xs != [] {
      var front := xs[..|xs| - 1];
      KeptInOrder(front, original, present, deleted);
      var at, at' := KeptAt(front, original, present, deleted), KeptAt(xs, original, present, deleted);
      forall n | 0 <= n < |xs| ensures n in at' <==> !Gone(xs[n], original, present, deleted) {
        assert n < |front| ==> front[n] == xs[n];
        assert n == |front| ==> n !in at;
      }
    }
  }

  lemma ListedIff(events: seq<Item>, id: string)
    ensures Listed(events, id) <==> id in Ids(events)
  {
    if id in Ids(events) {
      var e :| e in events && Id(e) != "" && Id(e) == id;
    }
    if Listed(events, id) {
      var e :| e in events && !e.Bare? && e.id == id;
      assert Id(e) == id;
    }
  }

  lemma RangeOfModerated(r: Rules, events: seq<Item>)
    requires var kept := Survivors(r, Deleted(r, events), events); kept != [] && IsRange(kept[|kept| - 1])
    ensures var kept, out := Survivors(r, Deleted(r, events), events), Moderated(r, events);
            var xs := kept[|kept| - 1].content.fields["elements"].elements;
            RangePruned(events, out, xs, KeptElements(xs, Ids(events), Ids(kept), Deleted(r, events)),
                        KeptAt(xs, Ids(events), Ids(kept), Deleted(r, events)))
  {
    var kept, out := Survivors(r, Deleted(r, events), events), Moderated(r, events);
    var xs := kept[|kept| - 1].content.fields["elements"].elements;
    IdsOfModerated(r, events);
    KeptInOrder(xs, Ids(events), Ids(kept), Deleted(r, events));
    forall n | 0 <= n < |xs|
      ensures Gone(xs[n], Ids(events), Ids(kept), Deleted(r, events)) <==>
              xs[n].Text? && Listed(events, xs[n].s) && !Listed(out, xs[n].s)
    {
      ListedIff(events, ElementId(xs[n]));
      ListedIff(out, ElementId(xs[n]));
    }
  }

  lemma PrunedIs(e: Item, muted: set<string>)
    ensures if PerUserMap(e) then MapPruned(e, PruneMap(e, muted), muted) else PruneMap(e, muted) == e
    ensures IsRange(e) <==> RangeItem(e)
  {
  }

  /** What the passes compute is what moderation promises. */
  lemma ModerationIs(r: Rules, events: seq<Item>)
    ensures ModeratedAs(r, events, Moderated(r, events), Origins(r, Deleted(r, events), events))
  {
    var deleted := Deleted(r, events);
    var o, kept, out := Origins(r, deleted, events), Survivors(r, deleted, events), Moderated(r, events);
    SurvivorsAre(r, deleted, events);
    forall i | 0 <= i < |events| ensures Banned(r, deleted, events[i]) <==> Removed(r, events[i]) {
      BannedIff(r, events, events[i]);
    }
    forall j | 0 <= j < |out| ensures ItemKept(r, events, out, j, events[o[j]]) {
      PrunedIs(events[o[j]], r.muted);
      PruneMapKeepsIdentity(events[o[j]], r.muted);
      assert kept[j] == PruneMap(events[o[j]], r.muted);
      if j == |out| - 1 && IsRange(kept[j]) {
        RangeOfModerated(r, events);
      }
    }
  }

  lemma BannedIff(r: Rules, events: seq<Item>, e: Item)
    requires e in events
    ensures Banned(r, Deleted(r, events), e) <==> Removed(r, e)
  {
    assert Id(e) != "" ==> Id(e) in Ids(events);
  }

  // ---------------------------------------------------------------- idempotence

  lemma {:induction false} AllSurvive(r: Rules, deleted: set<string>, events: seq<Item>)
    requires forall i :: 0 <= i < |events| ==> !Banned(r, deleted, events[i]) && PruneMap(events[i], r.muted) == events[i]
    ensures Survivors(r, deleted, events) == events
    decreases |events|
  {
    if events != [] {
      AllSurvive(r, deleted, events[..|events| - 1]);
      assert events == events[..|events| - 1] + [events[|events| - 1]];
    }
  }

  /** A list that has been through once has only texts in it, none of them gone. */
  lemma {:induction false} KeptTwice(xs: seq<Element>, ids: set<string>)
    requires forall x :: x in xs ==> x.Text?
    ensures KeptElements(xs, ids, ids, {}) == xs
    decreases |xs|
  {
    if xs != [] {
      var front, last := xs[..|xs| - 1], xs[|xs| - 1];
      assert xs == front + [last] && last in xs;
      KeptTwice(front, ids);
    }
  }

  lemma SecondPassKeepsAll(r: Rules, events: seq<Item>)
    ensures var out := Moderated(r, events); Deleted(r, out) == {} && Survivors(r, {}, out) == out
  {
    var deleted, out := Deleted(r, events), Moderated(r, events);
    IdsOfModerated(r, events);
    assert Deleted(r, out) == {};
    ModeratedIsSubsequence(r, events);
    var o := Origins(r, deleted, events);
    forall i | 0 <= i < |out| ensures !Banned(r, {}, out[i]) && PruneMap(out[i], r.muted) == out[i] {
      PruneMapKeepsIdentity(events[o[i]], r.muted);
      assert Derived(out[i], events[o[i]], r.muted, i == |out| - 1);
    }
    AllSurvive(r, {}, out);
  }

  /** Moderating twice is moderating once. */
  lemma ModerationIsIdempotent(r: Rules, events: seq<Item>)
    ensures Moderated(r, Moderated(r, events)) == Moderated(r, events)
  {
    var out := Moderated(r, events);
    SecondPassKeepsAll(r, events);
    if RangeOf(out).Some? {
      var deleted := Deleted(r, events);
      var kept := Survivors(r, deleted, events);
      KeptElementsAre(RangeOf(kept).value, Ids(events), Ids(kept), deleted);
      KeptTwice(RangeOf(out).value, Ids(out));
      var last := out[|out| - 1];
      assert last.content.fields["elements" := List(RangeOf(out).value)] == last.content.fields;
      assert out == out[..|out| - 1] + [last];
    }
  }
}
