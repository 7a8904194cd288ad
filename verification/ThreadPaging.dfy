/**
 * Collecting a whole thread page by page (`collectThreadRepliesDescending` in
 * internal/api_primal/primal_thread.go), over the keyset pages of
 * `GetThreadView` (internal/query/thread_service.go) and `GetEventReplies` (internal/store/events_threads.go).
 */
module ThreadPaging {
  import opened Common
  import opened Sorting

  datatype Cursor = Cursor(createdAt: int, id: string)

  datatype Reply = Reply(createdAt: int, id: string, body: string)

  datatype Page = Page(view: string, replies: seq<Reply>, next: Option<Cursor>)

  datatype Response = Failed | Ok(page: Page)

  /** The n-th request with a cursor; a live backend may answer differently from call to call. */
  type Backend = (nat, Option<Cursor>) -> Response

  datatype Outcome = Error | Collected(first: Page, replies: seq<Reply>)

  predicate IsSpace(c: char) {
    c == ' ' || c == '\t' || c == '\n' || c == '\r'
  }

  function TrimSpace(s: string): string {
    if s == "" then s
    else if IsSpace(s[0]) then TrimSpace(s[1..])
    else if IsSpace(s[|s| - 1]) then TrimSpace(s[..|s| - 1])
    else s
  }

  /** What the loop remembers of a cursor. */
  function Key(c: Cursor): (int, string) {
    (c.createdAt, TrimSpace(c.id))
  }

  /** Every cursor the backend hands out comes from a finite set. */
  ghost predicate CursorsWithin(backend: Backend, keys: set<(int, string)>) {
    forall n: nat, c :: backend(n, c).Ok? && backend(n, c).page.next.Some? ==> Key(backend(n, c).page.next.value) in keys
  }

  /** Follow the pages from the n-th request on: the replies, or the error that ends it. */
  ghost function Follow(backend: Backend, keys: set<(int, string)>, n: nat, cursor: Option<Cursor>,
                        seen: set<(int, string)>):
    Option<seq<Reply>>
    requires CursorsWithin(backend, keys) && seen <= keys
    decreases |keys - seen|
  {
    match backend(n, cursor)
    case Failed => None
    case Ok(page) =>
      if page.next.None? || page.replies == [] || Key(page.next.value) in seen then Some(page.replies)
      else
        var key := Key(page.next.value);
        SeenShrinks(keys, seen, key);
        match Follow(backend, keys, n + 1, page.next, seen + {key})
        case None => None
        case Some(rest) => Some(page.replies + rest)
  }

  lemma SeenShrinks(keys: set<(int, string)>, seen: set<(int, string)>, key: (int, string))
    requires seen <= keys && key in keys && key !in seen
    ensures |keys - (seen + {key})| == |keys - seen| - 1
  {
    assert keys - (seen + {key}) == (keys - seen) - {key};
  }

  lemma FollowOnce(backend: Backend, keys: set<(int, string)>, n: nat, cursor: Option<Cursor>, seen: set<(int, string)>,
                   page: Page)
    requires CursorsWithin(backend, keys) && seen <= keys
    requires backend(n, cursor) == Ok(page) && page.next.Some? && page.replies != [] && Key(page.next.value) !in seen
    ensures Key(page.next.value) in keys
    ensures var rest := Follow(backend, keys, n + 1, page.next, seen + {Key(page.next.value)});
            Follow(backend, keys, n, cursor, seen) == if rest.None? then None else Some(page.replies + rest.value)
  {
    assert Key(backend(n, cursor).page.next.value) in keys;
  }

  lemma FollowLast(backend: Backend, keys: set<(int, string)>, n: nat, cursor: Option<Cursor>, seen: set<(int, string)>,
                   page: Page)
    requires CursorsWithin(backend, keys) && seen <= keys
    requires backend(n, cursor) == Ok(page) && (page.next.None? || page.replies == [] || Key(page.next.value) in seen)
    ensures Follow(backend, keys, n, cursor, seen) == Some(page.replies)
  {
  }

  /** The cursor of request `n`: none at first, then that of the page before. */
  function CursorAt(pages: seq<Page>, n: nat): Option<Cursor>
    requires n <= |pages|
  {
    if n == 0 then None else pages[n - 1].next
  }

  /** Page `j` is the answer to request `j`. */
  ghost predicate Answers(backend: Backend, pages: seq<Page>, j: nat) {
    j < |pages| && backend(j, CursorAt(pages, j)) == Ok(pages[j])
  }

  ghost predicate Fetched(backend: Backend, pages: seq<Page>) {
    forall j: nat :: j < |pages| ==> Answers(backend, pages, j)
  }

  function RepliesFrom(pages: seq<Page>, n: nat): seq<Reply>
    decreases |pages| - n
  {
    if n >= |pages| then [] else pages[n].replies + RepliesFrom(pages, n + 1)
  }

  ghost predicate SameCursor(a: Option<Cursor>, b: Option<Cursor>) {
    a.Some? && b.Some? && a.value.createdAt == b.value.createdAt && TrimSpace(a.value.id) == TrimSpace(b.value.id)
  }

  /** Page `j` ends the walk: it has no cursor or no replies, or its cursor was there before. */
  ghost predicate Ends(pages: seq<Page>, j: nat)
    requires j < |pages|
  {
    || pages[j].next.None?
    || pages[j].replies == []
    || exists i :: 0 <= i < j && SameCursor(pages[i].next, pages[j].next)
  }

  ghost predicate Continues(pages: seq<Page>, n: nat)
    requires n <= |pages|
  {
    forall j: nat :: j < n ==> !Ends(pages, j)
  }

  /** An error means that a request failed; otherwise all pages up to the one that ends the walk are there. */
  ghost predicate Walked(backend: Backend, pages: seq<Page>, r: Outcome, calls: nat) {
    Fetched(backend, pages) &&
    match r
    case Error =>
      && calls == |pages| + 1 && Continues(pages, |pages|)
      && backend(|pages|, CursorAt(pages, |pages|)).Failed?
    case Collected(first, replies) =>
      && calls == |pages| && pages != [] && first == pages[0] && replies == RepliesFrom(pages, 0)
      && Continues(pages, |pages| - 1) && Ends(pages, |pages| - 1)
  }

  ghost function SeenAt(pages: seq<Page>, n: nat): set<(int, string)>
    requires n <= |pages|
  {
    set j | 0 <= j < n && pages[j].next.Some? :: Key(pages[j].next.value)
  }

  lemma EndsIff(pages: seq<Page>, n: nat)
    requires n < |pages|
    ensures Ends(pages, n) <==>
            pages[n].next.None? || pages[n].replies == [] || Key(pages[n].next.value) in SeenAt(pages, n)
  {
  }

  lemma SeenNext(pages: seq<Page>, n: nat)
    requires n < |pages|
    ensures SeenAt(pages, n + 1) == SeenAt(pages, n) + (if pages[n].next.Some? then {Key(pages[n].next.value)} else {})
  {
  }

  lemma EndsProlonged(pages: seq<Page>, page: Page, j: nat)
    requires j < |pages|
    ensures Ends(pages + [page], j) <==> Ends(pages, j)
  {
    assert forall i :: 0 <= i <= j ==> (pages + [page])[i] == pages[i];
  }

  lemma FetchedProlonged(backend: Backend, pages: seq<Page>, page: Page)
    requires Fetched(backend, pages) && backend(|pages|, CursorAt(pages, |pages|)) == Ok(page)
    ensures Fetched(backend, pages + [page])
  {
    var all := pages + [page];
    forall j: nat | j < |all| ensures Answers(backend, all, j) {
      assert j < |pages| ==> Answers(backend, pages, j);
      assert CursorAt(all, j) == CursorAt(pages, j);
    }
  }

  lemma SeenProlonged(pages: seq<Page>, page: Page)
    ensures SeenAt(pages + [page], |pages|) == SeenAt(pages, |pages|)
  {
    assert forall j :: 0 <= j < |pages| ==> (pages + [page])[j] == pages[j];
  }

  predicate Stop(page: Page, seen: set<(int, string)>) {
    page.next.None? || page.replies == [] || Key(page.next.value) in seen
  }

  /** The walk so far: every page was asked for, and none ends it. */
  ghost predicate Going(backend: Backend, pages: seq<Page>, seen: set<(int, string)>) {
    Fetched(backend, pages) && Continues(pages, |pages|) && seen == SeenAt(pages, |pages|)
  }

  lemma WalkStep(backend: Backend, pages: seq<Page>, seen: set<(int, string)>, page: Page)
    requires Going(backend, pages, seen) && backend(|pages|, CursorAt(pages, |pages|)) == Ok(page)
    ensures var all := pages + [page];
            && CursorAt(all, |all|) == page.next && RepliesFrom(all, 0) == RepliesFrom(pages, 0) + page.replies
            && (if Stop(page, seen) then Walked(backend, all, Collected(all[0], RepliesFrom(all, 0)), |all|)
                else Going(backend, all, seen + {Key(page.next.value)}))
  {
    RepliesProlonged(pages, page, 0);
    var all := pages + [page];
    FetchedProlonged(backend, pages, page);
    SeenProlonged(pages, page);
    forall j: nat | j < |pages| ensures !Ends(all, j) {
      EndsProlonged(pages, page, j);
    }
    EndsIff(all, |pages|);
    SeenNext(all, |pages|);
  }

  lemma {:induction false} RepliesProlonged(pages: seq<Page>, page: Page, n: nat)
    requires n <= |pages|
    ensures RepliesFrom(pages + [page], n) == RepliesFrom(pages, n) + page.replies
    decreases |pages| - n
  {
    if n < |pages| {
      RepliesProlonged(pages, page, n + 1);
    } else {
      assert RepliesFrom(pages + [page], n + 1) == [];
    }
  }

  /**
   * The loop ends for every backend whose cursors come from a finite set, after at most one request more
   * than there are cursors: with an error exactly if a request failed, else with the replies of all pages.
   */
  method CollectThreadReplies(backend: Backend, ghost keys: set<(int, string)>)
    returns (r: Outcome, calls: nat, ghost pages: seq<Page>)
    requires CursorsWithin(backend, keys)
    ensures calls <= |keys| + 1 && Walked(backend, pages, r, calls)
  {
    var first := Page("", [], None);
    var cursor: Option<Cursor> := None;
    var collected: seq<Reply> := [];
    var seen: set<(int, string)> := {};
    calls, pages := 0, [];
    while true
      invariant seen <= keys && calls == |seen| == |pages| && Going(backend, pages, seen)
      invariant cursor == CursorAt(pages, |pages|) && collected == RepliesFrom(pages, 0)
      invariant pages != [] ==> first == pages[0]
      decreases |keys - seen|
    {
      SubsetCount(seen, keys);
      var response := backend(calls, cursor);
      if response.Failed? {
        r, calls := Error, calls + 1;
        return;
      }
      var page := response.page;
      if calls == 0 {
        first := page;
      }
      collected := collected + page.replies;
      WalkStep(backend, pages, seen, page);
      pages := pages + [page];
      if page.next.None? || page.replies == [] || Key(page.next.value) in seen {
        r, calls := Collected(first, collected), calls + 1;
        return;
      }
      SeenShrinks(keys, seen, Key(page.next.value));
      seen := seen + {Key(page.next.value)};
      cursor := page.next;
      calls := calls + 1;
    }
  }

  lemma FollowEnds(backend: Backend, keys: set<(int, string)>, pages: seq<Page>, n: nat)
    requires CursorsWithin(backend, keys) && Fetched(backend, pages) && n < |pages| && SeenAt(pages, n) <= keys
    requires Ends(pages, n)
    ensures Follow(backend, keys, n, CursorAt(pages, n), SeenAt(pages, n)) == Some(pages[n].replies)
  {
    EndsIff(pages, n);
    assert Answers(backend, pages, n);
    FollowLast(backend, keys, n, CursorAt(pages, n), SeenAt(pages, n), pages[n]);
  }

  lemma FollowGoesOn(backend: Backend, keys: set<(int, string)>, pages: seq<Page>, n: nat)
    requires CursorsWithin(backend, keys) && Fetched(backend, pages) && n < |pages| && SeenAt(pages, n) <= keys
    requires !Ends(pages, n)
    ensures SeenAt(pages, n + 1) <= keys
    ensures var rest := Follow(backend, keys, n + 1, CursorAt(pages, n + 1), SeenAt(pages, n + 1));
            Follow(backend, keys, n, CursorAt(pages, n), SeenAt(pages, n)) ==
            if rest.None? then None else Some(pages[n].replies + rest.value)
  {
    EndsIff(pages, n);
    SeenNext(pages, n);
    assert Answers(backend, pages, n);
    FollowOnce(backend, keys, n, CursorAt(pages, n), SeenAt(pages, n), pages[n]);
  }

  /** `Follow` from page `n` on gives the rest of the walk. */
  lemma {:induction false} FollowFrom(backend: Backend, keys: set<(int, string)>, pages: seq<Page>, r: Outcome,
                                      calls: nat, n: nat)
    requires CursorsWithin(backend, keys) && Walked(backend, pages, r, calls)
    requires n <= |pages| && (r.Collected? ==> n < |pages|) && SeenAt(pages, n) <= keys
    ensures Follow(backend, keys, n, CursorAt(pages, n), SeenAt(pages, n)) ==
            if r.Error? then None else Some(RepliesFrom(pages, n))
    decreases |pages| - n
  {
    if n < |pages| {
      if Ends(pages, n) {
        FollowEnds(backend, keys, pages, n);
        assert n == |pages| - 1;
        assert pages[n].replies + [] == pages[n].replies;
      } else {
        FollowGoesOn(backend, keys, pages, n);
        FollowFrom(backend, keys, pages, r, calls, n + 1);
      }
    }
  }

  /** What the loop returns is what `Follow` describes. */
  lemma WalkIsFollow(backend: Backend, keys: set<(int, string)>, pages: seq<Page>, r: Outcome, calls: nat)
    requires CursorsWithin(backend, keys) && Walked(backend, pages, r, calls)
    ensures match Follow(backend, keys, 0, None, {})
            case None => r == Error
            case Some(replies) => backend(0, None).Ok? && r == Collected(backend(0, None).page, replies)
  {
    assert SeenAt(pages, 0) == {};
    FollowFrom(backend, keys, pages, r, calls, 0);
    if r.Collected? {
      assert Answers(backend, pages, 0);
    }
  }

  ghost predicate White(c: char) {
    c in {' ', '\t', '\n', '\r'}
  }

  /** What is cut off is white space, and none is left at the ends. */
  lemma {:induction false} TrimSpaceIs(s: string) returns (a: nat, b: nat)
    ensures a <= b <= |s| && TrimSpace(s) == s[a..b]
    ensures forall i :: 0 <= i < |s| && !(a <= i < b) ==> White(s[i])
    ensures a < b ==> !White(s[a]) && !White(s[b - 1])
    decreases |s|
  {
    if s == "" {
      a, b := 0, 0;
    } else if IsSpace(s[0]) {
      var t := s[1..];
      var i, j := TrimSpaceIs(t);
      a, b := i + 1, j + 1;
      assert t[i..j] == s[a..b];
      assert forall k :: 0 < k < |s| ==> s[k] == t[k - 1];
    } else if IsSpace(s[|s| - 1]) {
      var t := s[..|s| - 1];
      a, b := TrimSpaceIs(t);
      assert t[a..b] == s[a..b];
      assert forall k :: 0 <= k < |t| ==> s[k] == t[k];
    } else {
      a, b := 0, |s|;
    }
  }

  // ---------------------------------------------------------------- the keyset backend

  function CursorOf(r: Reply): Cursor {
    Cursor(r.createdAt, r.id)
  }

  predicate Less(a: Cursor, b: Cursor) {
    a.createdAt < b.createdAt || (a.createdAt == b.createdAt && StringLess(a.id, b.id))
  }

  /** Oldest first, ties by smaller id first. */
  ghost predicate Ascending(replies: seq<Reply>) {
    forall i, j :: 0 <= i < j < |replies| ==>
      || replies[i].createdAt < replies[j].createdAt
      || (replies[i].createdAt == replies[j].createdAt && StringLess(replies[i].id, replies[j].id))
  }

  /** The replies strictly after the cursor. */
  function After(replies: seq<Reply>, cursor: Option<Cursor>): seq<Reply> {
    if replies == [] then []
    else
      (if cursor.None? || Less(cursor.value, CursorOf(replies[0])) then [replies[0]] else []) + After(replies[1..], cursor)
  }

  /** One page of at most `size` replies; the first page also carries the comments. */
  function ServePage(replies: seq<Reply>, comments: seq<Reply>, view: string, size: nat, cursor: Option<Cursor>): Page
    requires size > 0
  {
    var rest := After(replies, cursor);
    var more := |rest| > size;
    var rows := if more then rest[..size] else rest;
    Page(view, if cursor.None? then rows + comments else rows, if more then Some(CursorOf(rows[size - 1])) else None)
  }

  function Keyset(replies: seq<Reply>, comments: seq<Reply>, view: string, size: nat): Backend
    requires size > 0
  {
    (n: nat, cursor: Option<Cursor>) => Ok(ServePage(replies, comments, view, size, cursor))
  }

  function Keys(replies: seq<Reply>): set<(int, string)> {
    set r | r in replies :: Key(CursorOf(r))
  }

  lemma {:induction false} AfterElements(replies: seq<Reply>, cursor: Option<Cursor>)
    ensures forall r :: r in After(replies, cursor) ==> r in replies
  {
    if replies != [] {
      AfterElements(replies[1..], cursor);
    }
  }

  lemma KeysetCursorsWithin(replies: seq<Reply>, comments: seq<Reply>, view: string, size: nat)
    requires size > 0
    ensures CursorsWithin(Keyset(replies, comments, view, size), Keys(replies))
  {
    forall cursor ensures forall r :: r in After(replies, cursor) ==> r in replies {
      AfterElements(replies, cursor);
    }
  }

  lemma {:induction false} AfterNone(replies: seq<Reply>)
    ensures After(replies, None) == replies
  {
    if replies != [] {
      AfterNone(replies[1..]);
      assert replies == [replies[0]] + replies[1..];
    }
  }

  lemma LessIrreflexive(c: Cursor)
    ensures !Less(c, c)
  {
    StringTotal(c.id, c.id);
  }

  lemma LessTransitive(a: Cursor, b: Cursor, c: Cursor)
    requires Less(a, b) && Less(b, c)
    ensures Less(a, c)
  {
    if a.createdAt == c.createdAt {
      StringTransitive(a.id, b.id, c.id);
    }
  }

  /** After the cursor of a reply come exactly the replies behind it. */
  lemma {:induction false} AfterReply(replies: seq<Reply>, p: nat)
    requires Ascending(replies) && p < |replies|
    ensures After(replies, Some(CursorOf(replies[p]))) == replies[p + 1..]
    decreases |replies|
  {
    var c, tail := Some(CursorOf(replies[p])), replies[1..];
    LessIrreflexive(CursorOf(replies[p]));
    if p == 0 {
      AfterAll(tail, CursorOf(replies[0]));
      assert [] + tail == tail;
    } else {
      if Less(CursorOf(replies[p]), CursorOf(replies[0])) {
        LessTransitive(CursorOf(replies[0]), CursorOf(replies[p]), CursorOf(replies[0]));
        LessIrreflexive(CursorOf(replies[0]));
      }
      AfterReply(tail, p - 1);
      assert tail[p - 1] == replies[p] && tail[p..] == replies[p + 1..];
    }
  }

  lemma {:induction false} AfterAll(replies: seq<Reply>, c: Cursor)
    requires forall i :: 0 <= i < |replies| ==> Less(c, CursorOf(replies[i]))
    ensures After(replies, Some(c)) == replies
  {
    if replies != [] {
      AfterAll(replies[1..], c);
      assert replies == [replies[0]] + replies[1..];
    }
  }

  // ---------------------------------------------------------------- completeness

  /** From reply `p` on, the cursors at page ends differ from each other and from those already seen. */
  predicate FreshBoundaries(replies: seq<Reply>, size: nat, p: nat, seen: set<(int, string)>)
    requires size > 0
    decreases |replies| - p
  {
    if p + size >= |replies| then true
    else
      var key := Key(CursorOf(replies[p + size - 1]));
      key !in seen && FreshBoundaries(replies, size, p + size, seen + {key})
  }

  lemma PrefixCancel<T>(a: seq<T>, b: seq<T>, c: seq<T>)
    ensures a + b == a + c <==> b == c
    ensures b <= c ==> a + b <= a + c
  {
    if a + b == a + c {
      assert b == (a + b)[|a|..] == (a + c)[|a|..] == c;
    }
  }

  /** The page behind reply `p - 1`. */
  function PageFrom(replies: seq<Reply>, view: string, size: nat, p: nat): Page
    requires size > 0 && p <= |replies|
  {
    if p + size < |replies| then Page(view, replies[p..p + size], Some(CursorOf(replies[p + size - 1])))
    else Page(view, replies[p..], None)
  }

  lemma PageBehind(replies: seq<Reply>, comments: seq<Reply>, view: string, size: nat, p: nat)
    requires size > 0 && Ascending(replies) && 0 < p <= |replies|
    ensures ServePage(replies, comments, view, size, Some(CursorOf(replies[p - 1]))) == PageFrom(replies, view, size, p)
  {
    AfterReply(replies, p - 1);
    var rest := replies[p..];
    if p + size < |replies| {
      assert rest[..size] == replies[p..p + size];
    }
  }

  ghost predicate PageAt(backend: Backend, replies: seq<Reply>, view: string, size: nat, n: nat, p: nat)
    requires size > 0 && 0 < p <= |replies|
  {
    backend(n, Some(CursorOf(replies[p - 1]))) == Ok(PageFrom(replies, view, size, p))
  }

  /** A backend that pages through `replies` once past the first page. */
  ghost predicate Pages(backend: Backend, replies: seq<Reply>, view: string, size: nat)
    requires size > 0
  {
    forall n: nat, p: nat :: 0 < p <= |replies| ==> PageAt(backend, replies, view, size, n, p)
  }

  /** Behind the first page, the rest arrives in full exactly if the page-end cursors are fresh. */
  lemma {:induction false} FollowRest(backend: Backend, keys: set<(int, string)>, replies: seq<Reply>, view: string,
                                      size: nat,
                                      n: nat, p: nat, seen: set<(int, string)>)
    requires size > 0 && Pages(backend, replies, view, size) && CursorsWithin(backend, keys)
    requires 0 < p <= |replies| && seen <= keys
    ensures var got := Follow(backend, keys, n, Some(CursorOf(replies[p - 1])), seen);
            got.Some? && got.value <= replies[p..] && (got.value == replies[p..] <==> FreshBoundaries(replies, size, p, seen))
    decreases |replies| - p
  {
    var page := PageFrom(replies, view, size, p);
    var cursor := Some(CursorOf(replies[p - 1]));
    assert PageAt(backend, replies, view, size, n, p);
    if p + size < |replies| {
      var key := Key(page.next.value);
      var rest := replies[p + size..];
      assert replies[p..] == page.replies + rest;
      if key in seen {
        FollowLast(backend, keys, n, cursor, seen, page);
      } else {
        FollowOnce(backend, keys, n, cursor, seen, page);
        FollowRest(backend, keys, replies, view, size, n + 1, p + size, seen + {key});
        PrefixCancel(page.replies, Follow(backend, keys, n + 1, page.next, seen + {key}).value, rest);
      }
    } else {
      FollowLast(backend, keys, n, cursor, seen, page);
    }
  }

  /** All the loop collects from a keyset backend. */
  ghost function CollectAll(replies: seq<Reply>, comments: seq<Reply>, view: string, size: nat): Option<seq<Reply>>
    requires size > 0
  {
    KeysetCursorsWithin(replies, comments, view, size);
    Follow(Keyset(replies, comments, view, size), Keys(replies), 0, None, {})
  }

  lemma FirstPage(replies: seq<Reply>, comments: seq<Reply>, view: string, size: nat)
    requires size > 0
    ensures ServePage(replies, comments, view, size, None) ==
            if size < |replies| then Page(view, replies[..size] + comments, Some(CursorOf(replies[size - 1])))
            else Page(view, replies + comments, None)
  {
    AfterNone(replies);
  }

  /**
   * Over a keyset backend the loop returns every reply once, in ascending order, with the comments behind the
   * first page, exactly if no two page-end cursors are alike: the seen-cursor guard then never fires.
   */
  lemma PagingCompleteIff(replies: seq<Reply>, comments: seq<Reply>, view: string, size: nat)
    requires size > 0 && Ascending(replies)
    ensures var got := CollectAll(replies, comments, view, size);
            var k := if |replies| <= size then |replies| else size;
            got.Some? && (got.value == replies[..k] + comments + replies[k..] <==> FreshBoundaries(replies, size, 0, {}))
  {
    KeysetCursorsWithin(replies, comments, view, size);
    FirstPage(replies, comments, view, size);
    var backend, keys := Keyset(replies, comments, view, size), Keys(replies);
    var page := ServePage(replies, comments, view, size, None);
    if |replies| > size {
      var key := Key(page.next.value);
      FollowOnce(backend, keys, 0, None, {}, page);
      KeysetPages(replies, comments, view, size);
      FollowRest(backend, keys, replies, view, size, 1, size, {} + {key});
      PrefixCancel(page.replies, Follow(backend, keys, 1, page.next, {} + {key}).value, replies[size..]);
    } else {
      FollowLast(backend, keys, 0, None, {}, page);
      assert replies[..|replies|] == replies && replies[|replies|..] == [];
      assert replies + comments + [] == replies + comments;
    }
  }

  lemma KeysetPages(replies: seq<Reply>, comments: seq<Reply>, view: string, size: nat)
    requires size > 0 && Ascending(replies)
    ensures Pages(Keyset(replies, comments, view, size), replies, view, size)
  {
    forall n: nat, p: nat | 0 < p <= |replies|
      ensures PageAt(Keyset(replies, comments, view, size), replies, view, size, n, p)
    {
      PageBehind(replies, comments, view, size, p);
    }
  }

  /** Distinct, trimmed ids are enough. */
  lemma {:induction false} TrimmedIdsAreFresh(replies: seq<Reply>, size: nat, p: nat, seen: set<(int, string)>)
    requires size > 0 && forall i :: 0 <= i < |replies| ==> TrimSpace(replies[i].id) == replies[i].id
    requires Ascending(replies)
    requires forall i :: p <= i < |replies| ==> Key(CursorOf(replies[i])) !in seen
    ensures FreshBoundaries(replies, size, p, seen)
    decreases |replies| - p
  {
    if p + size < |replies| {
      var key := Key(CursorOf(replies[p + size - 1]));
      forall i | p + size <= i < |replies| ensures Key(CursorOf(replies[i])) !in seen + {key} {
        assert Less(CursorOf(replies[p + size - 1]), CursorOf(replies[i]));
        LessIrreflexive(CursorOf(replies[i]));
      }
      TrimmedIdsAreFresh(replies, size, p + size, seen + {key});
    }
  }

  /** Stored ids carry no white space, so on stored data every reply arrives exactly once. */
  lemma StoredThreadsAreComplete(replies: seq<Reply>, comments: seq<Reply>, view: string, size: nat)
    requires size > 0 && Ascending(replies) && forall i :: 0 <= i < |replies| ==> TrimSpace(replies[i].id) == replies[i].id
    ensures var k := if |replies| <= size then |replies| else size;
            CollectAll(replies, comments, view, size) == Some(replies[..k] + comments + replies[k..])
  {
    TrimmedIdsAreFresh(replies, size, 0, {});
    PagingCompleteIff(replies, comments, view, size);
  }
}
