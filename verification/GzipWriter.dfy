/**
 * The buffered gzip response writer (internal/api/middleware_gzip.go).
 *
 * What the next writer down the chain sees is a list of `Down` events.  The compressor is known
 * only by its contract: compressed output decodes to the bytes written, some of which it may hold back
 * until it is flushed or closed.
 */
module GzipWriter {

  type Bytes = string

  const GZIP_MIN_SIZE: nat := 1024
  const STATUS_OK: int := 200

  /** `textual`: the content type is absent or one of those the middleware compresses. */
  datatype Headers = Headers(contentEncoding: string, textual: bool, hasLength: bool)

  const NO_HEADERS := Headers("", true, false)

  /** What a handler can do to the writer. */
  datatype Call = SetHeaders(h: Headers) | WriteHeader(code: int) | Write(p: Bytes) | Flush

  /** `Zipped(b)` is compressed output that decodes to `b`; `Trailer` closes the gzip stream. */
  datatype Down = Header(code: int, sent: Headers) | Raw(b: Bytes) | Zipped(b: Bytes) | Trailer | Flushed

  datatype Mode = Undecided | Passthrough | Compressed

  /** Not encoded already, and of a type worth compressing. */
  predicate Compressible(h: Headers) {
    h.contentEncoding == "" && h.textual
  }

  // ---------------------------------------------------------------- what the calls ask for

  /** Everything the handler wrote. */
  function Written(calls: seq<Call>): Bytes {
    if calls == [] then ""
    else
      var last := calls[|calls| - 1];
      Written(calls[..|calls| - 1]) + (if last.Write? then last.p else "")
  }

  function HeadersOf(calls: seq<Call>): Headers {
    if calls == [] then NO_HEADERS
    else
      var last := calls[|calls| - 1];
      if last.SetHeaders? then last.h else HeadersOf(calls[..|calls| - 1])
  }

  predicate AnyCode(calls: seq<Call>) {
    exists i :: 0 <= i < |calls| && calls[i].WriteHeader?
  }

  /** The first status code the handler set, or 200. */
  function FirstCode(calls: seq<Call>): int {
    if calls == [] then STATUS_OK
    else
      var front, last := calls[..|calls| - 1], calls[|calls| - 1];
      if last.WriteHeader? && !AnyCode(front) then last.code else FirstCode(front)
  }

  /** The mode after `calls`: decided by the first flush or by reaching the minimum size. */
  function ModeOf(calls: seq<Call>): Mode {
    if calls == [] then Undecided
    else
      var before, last := ModeOf(calls[..|calls| - 1]), calls[|calls| - 1];
      if before != Undecided then before
      else if last.Flush? then Passthrough
      else if last.Write? && |Written(calls)| >= GZIP_MIN_SIZE then
        if Compressible(HeadersOf(calls)) then Compressed else Passthrough
      else Undecided
  }

  /** The header the client gets: as it stood when the mode was decided, or at the end. */
  function HeaderOf(calls: seq<Call>): (h: Down)
    ensures h.Header?
  {
    if calls == [] || ModeOf(calls) == Undecided || ModeOf(calls[..|calls| - 1]) == Undecided then
      Header(FirstCode(calls), Shown(ModeOf(calls), HeadersOf(calls)))
    else HeaderOf(calls[..|calls| - 1])
  }

  function Encoded(h: Headers): Headers {
    h.(contentEncoding := "gzip", hasLength := false)
  }

  /** Headers as they go out in a mode. */
  function Shown(mode: Mode, h: Headers): Headers {
    if mode == Compressed then Encoded(h) else h
  }

  /** What the calls so far ask for, in one value. */
  datatype Ask = Ask(headers: Headers, coded: bool, code: int, mode: Mode, written: Bytes, header: Down)

  ghost function AskOf(calls: seq<Call>): Ask {
    Ask(HeadersOf(calls), AnyCode(calls), FirstCode(calls), ModeOf(calls), Written(calls), HeaderOf(calls))
  }

  /** How one more call changes what is asked for. */
  function Extend(a: Ask, c: Call): Ask {
    var headers := if c.SetHeaders? then c.h else a.headers;
    var code := if c.WriteHeader? && !a.coded then c.code else a.code;
    var written := if c.Write? then a.written + c.p else a.written;
    var mode :=
      if a.mode != Undecided then a.mode
      else if c.Flush? then Passthrough
      else if c.Write? && |written| >= GZIP_MIN_SIZE then if Compressible(headers) then Compressed else Passthrough
      else Undecided;
    Ask(headers, a.coded || c.WriteHeader?, code, mode, written,
        if a.mode != Undecided then a.header else Header(code, Shown(mode, headers)))
  }

  lemma CallAppend(calls: seq<Call>, c: Call)
    ensures AskOf(calls + [c]) == Extend(AskOf(calls), c)
  {
    var calls' := calls + [c];
    assert calls'[..|calls'| - 1] == calls;
    assert Written(calls) + "" == Written(calls);
    if AnyCode(calls) {
      var i :| 0 <= i < |calls| && calls[i].WriteHeader?;
      assert calls'[i].WriteHeader?;
    }
    if c.WriteHeader? {
      assert calls'[|calls|].WriteHeader?;
    }
  }

  // ---------------------------------------------------------------- what the client gets

  function Decoded(down: seq<Down>): Bytes {
    if down == [] then ""
    else
      var last := down[|down| - 1];
      Decoded(down[..|down| - 1]) + (if last.Raw? || last.Zipped? then last.b else "")
  }

  /** After the header only uncompressed bytes. */
  predicate RawBody(down: seq<Down>) {
    forall i :: 0 < i < |down| ==> down[i].Raw? || down[i].Flushed?
  }

  /** After the header, up to `end`, only compressed bytes. */
  predicate ZippedBody(down: seq<Down>, end: nat) {
    forall i :: 0 < i < |down| && i < end ==> down[i].Zipped? || down[i].Flushed?
  }

  lemma DecodedAppend(down: seq<Down>, e: Down)
    ensures Decoded(down + [e]) == if e.Raw? || e.Zipped? then Decoded(down) + e.b else Decoded(down)
  {
    assert (down + [e])[..|down|] == down;
  }

  class Writer {
    var headers: Headers
    var code: int
    var wroteHeader: bool
    var buf: Bytes
    var compressing: bool
    var held: Bytes
    var passthrough: bool
    var down: seq<Down>
    ghost var ask: Ask
    ghost var calls: seq<Call>

    ghost predicate Valid()
      reads this
    {
      ask == AskOf(calls) && Matches()
    }

    /** The fields are what the calls so far ask for. */
    ghost predicate Matches()
      reads this
    {
      && headers == ask.headers && wroteHeader == ask.coded && code == ask.code
      && match ask.mode
         case Undecided =>
           && !compressing && !passthrough && down == [] && held == ""
           && buf == ask.written && |buf| < GZIP_MIN_SIZE && ask.header == Header(code, headers)
         case Passthrough =>
           && !compressing && passthrough && buf == "" && held == ""
           && down != [] && down[0] == ask.header && RawBody(down) && Decoded(down) == ask.written
         case Compressed =>
           && compressing && !passthrough && buf == ""
           && down != [] && down[0] == ask.header && ZippedBody(down, |down|) && Decoded(down) + held == ask.written
    }

    ghost method Record(c: Call)
      requires ask == AskOf(calls)
      modifies this`ask, this`calls
      ensures calls == old(calls) + [c] && ask == Extend(old(ask), c) && ask == AskOf(calls)
    {
      CallAppend(calls, c);
      ask := Extend(ask, c);
      calls := calls + [c];
    }

    constructor ()
      ensures Valid() && calls == []
    {
      headers := NO_HEADERS;
      code, wroteHeader, buf, compressing, held, passthrough, down := STATUS_OK, false, "", false, "", false, [];
      calls := [];
      ask := AskOf([]);
    }

    method Emit(e: Down)
      modifies this`down
      ensures down == old(down) + [e]
      ensures Decoded(down) == if e.Raw? || e.Zipped? then old(Decoded(down)) + e.b else old(Decoded(down))
    {
      DecodedAppend(down, e);
      down := down + [e];
    }

    /** The compressor takes `p` and may put out any part of what it holds. */
    method Compress(p: Bytes)
      requires down != []
      modifies this`down, this`held
      ensures down != [] && down[0] == old(down[0])
      ensures ZippedBody(old(down), |old(down)|) ==> ZippedBody(down, |down|)
      ensures Decoded(down) + held == old(Decoded(down) + held) + p
    {
      held := held + p;
      var k :| 0 <= k <= |held|;
      if k > 0 {
        Emit(Zipped(held[..k]));
        held := held[k..];
      }
    }

    /** The compressor puts out everything it holds. */
    method Drain()
      requires down != []
      modifies this`down, this`held
      ensures held == "" && down != [] && down[0] == old(down[0])
      ensures ZippedBody(old(down), |old(down)|) ==> ZippedBody(down, |down|)
      ensures Decoded(down) == old(Decoded(down) + held)
    {
      if held != "" {
        Emit(Zipped(held));
        held := "";
      }
    }

    method StartPassthrough()
      requires !compressing && !passthrough && down == [] && held == ""
      modifies this`down, this`buf, this`passthrough
      ensures passthrough && buf == "" && down != [] && down[0] == Header(code, headers)
      ensures RawBody(down) && Decoded(down) == old(buf)
    {
      passthrough := true;
      SendBuffered();
    }

    /** The header and whatever was buffered, uncompressed. */
    method SendBuffered()
      requires down == []
      modifies this`down, this`buf
      ensures buf == "" && down != [] && down[0] == Header(code, headers) && RawBody(down) && Decoded(down) == old(buf)
    {
      Emit(Header(code, headers));
      if |buf| > 0 {
        Emit(Raw(buf));
        buf := "";
      }
    }

    /** Commit to gzip, unless the response is not worth compressing after all. */
    method StartCompressing()
      requires !compressing && !passthrough && down == [] && held == ""
      modifies this`down, this`buf, this`passthrough, this`compressing, this`held
      ensures buf == "" && down != [] && passthrough == !compressing
      ensures compressing == (headers.contentEncoding == "" && headers.textual)
      ensures compressing ==>
                && down[0] == Header(code, Headers("gzip", true, false))
                && ZippedBody(down, |down|) && Decoded(down) + held == old(buf)
      ensures passthrough ==>
                down[0] == Header(code, headers) && RawBody(down) && Decoded(down) == old(buf) && held == ""
    {
      if !Compressible(headers) {
        StartPassthrough();
        return;
      }
      Emit(Header(code, Encoded(headers)));
      compressing := true;
      if |buf| > 0 {
        Compress(buf);
        buf := "";
      }
    }

    method SetHeaders(h: Headers)
      requires Valid()
      modifies this
      ensures Valid() && calls == old(calls) + [Call.SetHeaders(h)]
    {
      headers := h;
      Record(Call.SetHeaders(h));
    }

    method WriteHeader(c: int)
      requires Valid()
      modifies this
      ensures Valid() && calls == old(calls) + [Call.WriteHeader(c)]
    {
      if !wroteHeader {
        code := c;
        wroteHeader := true;
      }
      Record(Call.WriteHeader(c));
    }

    method Write(p: Bytes)
      requires Valid()
      modifies this
      ensures Valid() && calls == old(calls) + [Call.Write(p)]
    {
      CallAppend(calls, Call.Write(p));
      WriteBody(p);
      calls := calls + [Call.Write(p)];
    }

    method WriteBody(p: Bytes)
      requires Matches()
      modifies this`buf, this`down, this`held, this`passthrough, this`compressing, this`ask
      ensures Matches() && ask == Extend(old(ask), Call.Write(p))
    {
      if passthrough {
        Emit(Raw(p));
      } else if compressing {
        Compress(p);
      } else {
        buf := buf + p;
        if |buf| >= GZIP_MIN_SIZE {
          StartCompressing();
        }
      }
      ask := Extend(ask, Call.Write(p));
    }

    /** After a flush the client has everything the handler wrote so far. */
    method Flush()
      requires Valid()
      modifies this
      ensures Valid() && calls == old(calls) + [Call.Flush]
      ensures down != [] && Decoded(down) == Written(calls)
    {
      CallAppend(calls, Call.Flush);
      FlushBody();
      calls := calls + [Call.Flush];
    }

    method FlushBody()
      requires Matches()
      modifies this`buf, this`down, this`held, this`passthrough, this`ask
      ensures Matches() && ask == Extend(old(ask), Call.Flush)
      ensures down != [] && Decoded(down) == ask.written
    {
      if !compressing && !passthrough {
        StartPassthrough();
      }
      if compressing {
        Drain();
      }
      FlushDownstream();
      ask := Extend(ask, Call.Flush);
    }

    method FlushDownstream()
      requires down != []
      modifies this`down
      ensures down != [] && down[0] == old(down[0]) && Decoded(down) == old(Decoded(down))
      ensures ZippedBody(old(down), |old(down)|) ==> ZippedBody(down, |down|)
      ensures RawBody(old(down)) ==> RawBody(down)
    {
      Emit(Flushed);
    }

    method Close()
      requires down != []
      modifies this`down, this`held, this`compressing
      ensures !compressing && |down| >= 2 && down[0] == old(down[0]) && down[|down| - 1] == Trailer
      ensures ZippedBody(old(down), |old(down)|) ==> ZippedBody(down, |down| - 1)
      ensures Decoded(down) == old(Decoded(down) + held)
    {
      Drain();
      Emit(Trailer);
      compressing := false;
    }

    method Finalize()
      requires Matches()
      modifies this`buf, this`down, this`held, this`compressing
      ensures Complete(down, ask)
    {
      if passthrough {
        return;
      }
      if compressing {
        Close();
        return;
      }
      SendBuffered();
    }
  }

  /** A response that carries out the calls: one header first, then the body, gzip exactly when the mode is. */
  ghost predicate Complete(down: seq<Down>, ask: Ask) {
    && down != [] && down[0] == ask.header && Decoded(down) == ask.written
    && if ask.mode == Compressed
       then |down| >= 2 && ZippedBody(down, |down| - 1) && down[|down| - 1] == Trailer
       else RawBody(down)
  }

  /** Once chosen, the mode and the header never change. */
  lemma {:induction false} ModeIsFinal(calls: seq<Call>, more: seq<Call>)
    requires ModeOf(calls) != Undecided
    ensures ModeOf(calls + more) == ModeOf(calls) && HeaderOf(calls + more) == HeaderOf(calls)
    decreases |more|
  {
    if more == [] {
      assert calls + more == calls;
    } else {
      var front := more[..|more| - 1];
      ModeIsFinal(calls, front);
      CallAppend(calls + front, more[|more| - 1]);
      assert calls + more == calls + front + [more[|more| - 1]];
    }
  }

  // ---------------------------------------------------------------- the status code

  /** The status a plain `http.ResponseWriter` would send: fixed by the first header, write or flush. */
  function PlainStatus(calls: seq<Call>): int {
    if calls == [] then STATUS_OK
    else if calls[0].WriteHeader? then calls[0].code
    else if calls[0].SetHeaders? then PlainStatus(calls[1..])
    else STATUS_OK
  }

  ghost predicate IsFirstCode(calls: seq<Call>, k: nat) {
    k < |calls| && calls[k].WriteHeader? && forall i :: 0 <= i < k ==> !calls[i].WriteHeader?
  }

  ghost predicate BodyBefore(calls: seq<Call>, k: nat) {
    exists j :: 0 <= j < |calls| && j < k && (calls[j].Write? || calls[j].Flush?)
  }

  /** A status other than 200 is first set after a write, while the writer is still undecided. */
  ghost predicate LateStatus(calls: seq<Call>) {
    exists k: nat :: IsFirstCode(calls, k) && calls[k].code != STATUS_OK && BodyBefore(calls, k) &&
                     ModeOf(calls[..k]) == Undecided
  }

  lemma UndecidedPrefix(calls: seq<Call>, k: nat)
    requires k <= |calls| && ModeOf(calls) == Undecided
    ensures ModeOf(calls[..k]) == Undecided
  {
    assert calls[..k] + calls[k..] == calls;
    if ModeOf(calls[..k]) != Undecided {
      ModeIsFinal(calls[..k], calls[k..]);
    }
  }

  /** The writer sends the first status set before it decided, else 200. */
  lemma {:induction false} SentStatus(calls: seq<Call>, k: nat)
    requires IsFirstCode(calls, k) || !AnyCode(calls)
    ensures HeaderOf(calls).code == if AnyCode(calls) && ModeOf(calls[..k]) == Undecided then calls[k].code else STATUS_OK
    decreases |calls|
  {
    if calls != [] {
      var front, c := calls[..|calls| - 1], calls[|calls| - 1];
      assert calls == front + [c];
      CallAppend(front, c);
      SentStatus(front, k);
      if AnyCode(front) {
        assert calls[..k] == front[..k];
        if ModeOf(front) == Undecided {
          UndecidedPrefix(front, k);
        }
      } else if AnyCode(calls) {
        assert calls[..k] == front;
      }
    }
  }

  lemma {:induction false} PlainStatusIs(calls: seq<Call>, k: nat)
    requires IsFirstCode(calls, k) || !AnyCode(calls)
    ensures PlainStatus(calls) == if AnyCode(calls) && !BodyBefore(calls, k) then calls[k].code else STATUS_OK
    decreases |calls|
  {
    if calls != [] && calls[0].SetHeaders? {
      var tail := calls[1..];
      assert calls == [calls[0]] + tail;
      if AnyCode(calls) {
        assert tail[k - 1] == calls[k];
        PlainStatusIs(tail, k - 1);
        assert forall j :: 0 <= j < |tail| ==> tail[j] == calls[j + 1];
        assert BodyBefore(calls, k) ==> BodyBefore(tail, k - 1) by {
          if BodyBefore(calls, k) {
            var j :| 0 <= j < |calls| && j < k && (calls[j].Write? || calls[j].Flush?);
            assert tail[j - 1] == calls[j];
          }
        }
      } else {
        PlainStatusIs(tail, k);
      }
    } else if calls != [] && AnyCode(calls) {
      assert calls[0].WriteHeader? <==> k == 0;
      assert k > 0 ==> BodyBefore(calls, k);
    }
  }

  lemma {:induction false} FirstCodeExists(calls: seq<Call>) returns (k: nat)
    requires AnyCode(calls)
    ensures IsFirstCode(calls, k)
  {
    var i :| 0 <= i < |calls| && calls[i].WriteHeader?;
    k := 0;
    while !calls[k].WriteHeader?
      invariant k <= i && forall j :: 0 <= j < k ==> !calls[j].WriteHeader?
      decreases i - k
    {
      k := k + 1;
    }
  }

  /**
   * The status the client sees is the one a plain writer would have sent, for exactly the handlers that do
   * not set one other than 200 after writing while the writer is still undecided.
   */
  lemma StatusTransparentIff(calls: seq<Call>)
    ensures HeaderOf(calls).code == PlainStatus(calls) <==> !LateStatus(calls)
  {
    if !AnyCode(calls) {
      SentStatus(calls, 0);
      PlainStatusIs(calls, 0);
    } else {
      var k := FirstCodeExists(calls);
      SentStatus(calls, k);
      PlainStatusIs(calls, k);
      if !BodyBefore(calls, k) {
        NoBodyIsUndecided(calls[..k]);
      }
    }
  }

  lemma {:induction false} NoBodyIsUndecided(calls: seq<Call>)
    requires !BodyBefore(calls, |calls|)
    ensures ModeOf(calls) == Undecided && Written(calls) == ""
  {
    if calls != [] {
      NoBodyIsUndecided(calls[..|calls| - 1]);
    }
  }

  /** A handler that writes and then reports an error: a plain writer has sent 200 by then, this one has not. */
  lemma LateStatusExample()
    ensures var calls := [Write("x"), WriteHeader(404)];
            HeaderOf(calls).code == 404 && PlainStatus(calls) == STATUS_OK && LateStatus(calls)
  {
    var calls := [Write("x"), WriteHeader(404)];
    CallAppend([], calls[0]);
    CallAppend([calls[0]], calls[1]);
    assert [] + [calls[0]] == [calls[0]] && [calls[0]] + [calls[1]] == calls;
    StatusTransparentIff(calls);
  }

  // ---------------------------------------------------------------- the headers

  ghost predicate OnlyHeaders(calls: seq<Call>) {
    forall i :: 0 <= i < |calls| ==> calls[i].SetHeaders?
  }

  /** The headers a plain `http.ResponseWriter` would send: those set before the first status, write or flush. */
  ghost function PlainHeaders(calls: seq<Call>): Headers {
    if calls == [] then NO_HEADERS
    else
      var front, last := calls[..|calls| - 1], calls[|calls| - 1];
      if last.SetHeaders? && OnlyHeaders(front) then last.h else PlainHeaders(front)
  }

  /** The last time headers are set while the writer is undecided, or -1. */
  function LastHeaders(calls: seq<Call>): (k: int)
    ensures -1 <= k < |calls| && (k >= 0 ==> calls[k].SetHeaders?)
  {
    if calls == [] then -1
    else
      var front, last := calls[..|calls| - 1], calls[|calls| - 1];
      if last.SetHeaders? && ModeOf(front) == Undecided then |front| else LastHeaders(front)
  }

  function LastHeadersSet(calls: seq<Call>): Headers {
    if LastHeaders(calls) < 0 then NO_HEADERS else calls[LastHeaders(calls)].h
  }

  /** The first status, write or flush, or the end. */
  ghost predicate IsFirstOther(calls: seq<Call>, j: nat) {
    j <= |calls| && OnlyHeaders(calls[..j]) && (j < |calls| ==> !calls[j].SetHeaders?)
  }

  /**
   * Headers are last set, while the writer is still undecided, after a status, write or flush, to values that show
   * and differ from those in force at the first of these.
   */
  ghost predicate LateHeaders(calls: seq<Call>) {
    var k, mode := LastHeaders(calls), ModeOf(calls);
    exists j :: 0 <= j < k && IsFirstOther(calls, j) && Shown(mode, calls[k].h) != Shown(mode, HeadersOf(calls[..j]))
  }

  lemma {:induction false} SentHeaders(calls: seq<Call>)
    ensures HeaderOf(calls).sent == if ModeOf(calls) == Compressed then Headers("gzip", true, false) else LastHeadersSet(calls)
    ensures HeaderOf(calls).sent == Shown(ModeOf(calls), LastHeadersSet(calls))
    ensures ModeOf(calls) == Undecided ==> HeadersOf(calls) == LastHeadersSet(calls)
  {
    if calls != [] {
      var front, c := calls[..|calls| - 1], calls[|calls| - 1];
      SentHeaders(front);
      CallAppend(front, c);
      assert front + [c] == calls;
    }
  }

  lemma {:induction false} PlainHeadersAre(calls: seq<Call>)
    ensures LastHeaders(calls) < 0 || OnlyHeaders(calls[..LastHeaders(calls)]) ==> PlainHeaders(calls) == LastHeadersSet(calls)
  {
    if calls != [] {
      var front, c := calls[..|calls| - 1], calls[|calls| - 1];
      PlainHeadersAre(front);
      if OnlyHeaders(front) {
        NoBodyIsUndecided(front);
      }
      var k := LastHeaders(front);
      assert k >= 0 ==> calls[..k] == front[..k];
    }
  }

  lemma FirstOther(calls: seq<Call>) returns (j: nat)
    ensures IsFirstOther(calls, j)
  {
    j := 0;
    while j < |calls| && calls[j].SetHeaders?
      invariant j <= |calls| && OnlyHeaders(calls[..j])
    {
      assert calls[..j + 1] == calls[..j] + [calls[j]];
      j := j + 1;
    }
  }

  lemma {:induction false} PlainHeadersInForce(calls: seq<Call>, j: nat)
    requires IsFirstOther(calls, j)
    ensures PlainHeaders(calls) == HeadersOf(calls[..j])
    decreases |calls|
  {
    if calls != [] {
      var front := calls[..|calls| - 1];
      if j == |calls| {
        assert calls[..j] == calls && front[..j - 1] == front == calls[..j][..j - 1];
        assert forall i :: 0 <= i < |calls| ==> calls[i] == calls[..j][i];
        PlainHeadersInForce(front, j - 1);
      } else {
        assert calls[..j] == front[..j];
        assert j < |front| ==> front[j] == calls[j];
        PlainHeadersInForce(front, j);
        if OnlyHeaders(front) {
          assert j == |front|;
        }
      }
    }
  }

  /** Before the first other call means with headers only before it. */
  lemma FirstOtherIs(calls: seq<Call>, j: nat, k: nat)
    requires IsFirstOther(calls, j) && k <= |calls|
    ensures j < k <==> !OnlyHeaders(calls[..k])
  {
    if j < k {
      assert calls[..k][j] == calls[j];
    } else {
      assert forall i :: 0 <= i < k ==> calls[..k][i] == calls[..j][i];
    }
  }

  /**
   * The headers the client sees, but for the encoding this writer adds, are those a plain writer would have sent, for
   * exactly the handlers that do not change them after a status, write or flush while the writer is still undecided.
   */
  lemma HeadersTransparentIff(calls: seq<Call>)
    ensures HeaderOf(calls).sent == Shown(ModeOf(calls), PlainHeaders(calls)) <==> !LateHeaders(calls)
  {
    SentHeaders(calls);
    PlainHeadersAre(calls);
    var j := FirstOther(calls);
    PlainHeadersInForce(calls, j);
    if LastHeaders(calls) >= 0 {
      FirstOtherIs(calls, j, LastHeaders(calls));
    }
    forall i | 0 <= i < LastHeaders(calls) && IsFirstOther(calls, i) ensures HeadersOf(calls[..i]) == PlainHeaders(calls) {
      PlainHeadersInForce(calls, i);
    }
  }

  /** A content type set after the status: a plain writer would not send it any more. */
  lemma LateHeadersExample()
    ensures var calls := [WriteHeader(200), SetHeaders(Headers("", false, false))];
            HeaderOf(calls).sent == Headers("", false, false) && PlainHeaders(calls) == NO_HEADERS && LateHeaders(calls)
  {
    var calls := [WriteHeader(200), SetHeaders(Headers("", false, false))];
    CallAppend([], calls[0]);
    CallAppend([calls[0]], calls[1]);
    assert [] + [calls[0]] == [calls[0]] && [calls[0]] + [calls[1]] == calls;
    assert calls[..1] == [calls[0]] && [calls[0]][..0] == [];
    HeadersTransparentIff(calls);
  }

  // ---------------------------------------------------------------- the whole response

  /** Call `k` makes the writer decide: a flush, or the write with which 1024 bytes have been written. */
  predicate Deciding(calls: seq<Call>, k: nat)
    requires k < |calls|
  {
    calls[k].Flush? || (calls[k].Write? && |Written(calls[..k + 1])| >= 1024)
  }

  /** Where the writer decides: at its first such call, or at the end. */
  ghost predicate DecidesAt(calls: seq<Call>, n: nat) {
    n <= |calls| && (n < |calls| ==> Deciding(calls, n)) && forall i :: 0 <= i < n ==> !Deciding(calls, i)
  }

  /** `h` was set last before call `n`, or nothing was and it is what a response starts with. */
  ghost predicate InForce(calls: seq<Call>, n: nat, h: Headers)
    requires n <= |calls|
  {
    || (h == Headers("", true, false) && forall i :: 0 <= i < n ==> !calls[i].SetHeaders?)
    || exists k :: SetLast(calls, n, k) && calls[k].h == h
  }

  ghost predicate SetLast(calls: seq<Call>, n: nat, k: int)
    requires n <= |calls|
  {
    0 <= k < n && calls[k].SetHeaders? && forall i :: k < i < n ==> !calls[i].SetHeaders?
  }

  ghost predicate IsGzip(down: seq<Down>) {
    exists i :: 0 <= i < |down| && (down[i].Zipped? || down[i].Trailer?)
  }

  lemma {:induction false} UndecidedIff(calls: seq<Call>, k: nat)
    requires k <= |calls|
    ensures ModeOf(calls[..k]) == Undecided <==> forall i :: 0 <= i < k ==> !Deciding(calls, i)
  {
    if k > 0 {
      UndecidedIff(calls, k - 1);
      var front := calls[..k - 1];
      CallAppend(front, calls[k - 1]);
      assert calls[..k] == front + [calls[k - 1]] && calls[..(k - 1) + 1] == calls[..k];
      assert ModeOf(front) == Undecided ==> (ModeOf(calls[..k]) == Undecided <==> !Deciding(calls, k - 1));
    }
  }

  lemma {:induction false} HeadersInForce(calls: seq<Call>, n: nat, h: Headers)
    requires n <= |calls| && InForce(calls, n, h)
    ensures HeadersOf(calls[..n]) == h
  {
    if n > 0 {
      assert calls[..n][..n - 1] == calls[..n - 1];
      if !calls[n - 1].SetHeaders? {
        assert InForce(calls, n - 1, h) by {
          if k :| SetLast(calls, n, k) && calls[k].h == h {
            assert SetLast(calls, n - 1, k);
          }
        }
        HeadersInForce(calls, n - 1, h);
      }
    }
  }

  /** Every list of calls has a place of decision, and headers in force there. */
  lemma DecisionExists(calls: seq<Call>) returns (n: nat, h: Headers)
    ensures DecidesAt(calls, n) && InForce(calls, n, h)
  {
    n, h := 0, Headers("", true, false);
    while n < |calls| && !Deciding(calls, n)
      invariant n <= |calls| && InForce(calls, n, h) && forall i :: 0 <= i < n ==> !Deciding(calls, i)
    {
      if calls[n].SetHeaders? {
        h := calls[n].h;
        assert SetLast(calls, n + 1, n);
      } else if k :| SetLast(calls, n, k) && calls[k].h == h {
        assert SetLast(calls, n + 1, k);
      }
      n := n + 1;
    }
  }

  lemma SplitAt(calls: seq<Call>, n: nat) returns (front: seq<Call>, more: seq<Call>)
    requires n < |calls|
    ensures front == calls[..n] && calls == front + [calls[n]] + more && calls[..n + 1] == front + [calls[n]]
  {
    front, more := calls[..n], calls[n + 1..];
  }

  lemma UndecidedAtEnd(calls: seq<Call>)
    requires ModeOf(calls) == Undecided
    ensures HeaderOf(calls).sent == HeadersOf(calls)
  {
  }

  /** What the calls ask for, by the place of decision. */
  lemma DecisionIs(calls: seq<Call>, n: nat, h: Headers)
    requires DecidesAt(calls, n) && InForce(calls, n, h)
    ensures ModeOf(calls) == if n == |calls| then Undecided
                             else if calls[n].Write? && h.contentEncoding == "" && h.textual then Compressed else Passthrough
    ensures HeaderOf(calls).sent == Shown(ModeOf(calls), h)
  {
    UndecidedIff(calls, n);
    HeadersInForce(calls, n, h);
    if n == |calls| {
      assert calls[..n] == calls;
      UndecidedAtEnd(calls);
    } else {
      var front, more := SplitAt(calls, n);
      DecidedBy(front, calls[n], more);
    }
  }

  lemma DecidedBy(front: seq<Call>, c: Call, more: seq<Call>)
    requires ModeOf(front) == Undecided && (c.Flush? || (c.Write? && |Written(front + [c])| >= 1024))
    ensures var h, calls := HeadersOf(front), front + [c] + more;
            && ModeOf(calls) == (if c.Write? && h.contentEncoding == "" && h.textual then Compressed else Passthrough)
            && HeaderOf(calls).sent == Shown(ModeOf(calls), h)
  {
    DecidingStep(front, c);
    ModeIsFinal(front + [c], more);
  }

  lemma DecidingStep(front: seq<Call>, c: Call)
    requires ModeOf(front) == Undecided && (c.Flush? || (c.Write? && |Written(front + [c])| >= 1024))
    ensures var h, calls := HeadersOf(front), front + [c];
            && ModeOf(calls) == (if c.Write? && h.contentEncoding == "" && h.textual then Compressed else Passthrough)
            && HeaderOf(calls).sent == Shown(ModeOf(calls), h)
  {
    CallAppend(front, c);
  }

  /** The response is gzip, and says so, exactly if the decision is for gzip; otherwise it goes out as it was set. */
  ghost predicate Labelled(calls: seq<Call>, down: seq<Down>, n: nat, h: Headers)
    requires DecidesAt(calls, n)
  {
    down != [] && down[0].Header? &&
    if n < |calls| && calls[n].Write? && h.textual && h.contentEncoding == ""
    then IsGzip(down) && down[0].sent == Headers("gzip", true, false)
    else !IsGzip(down) && down[0].sent == h
  }

  lemma ResponseIsLabelled(calls: seq<Call>, down: seq<Down>, n: nat, h: Headers)
    requires Complete(down, AskOf(calls)) && DecidesAt(calls, n) && InForce(calls, n, h)
    ensures Labelled(calls, down, n, h)
  {
    DecisionIs(calls, n, h);
  }

  /** The status is the first one set before the decision, or 200. */
  lemma ResponseHasStatus(calls: seq<Call>, down: seq<Down>, n: nat)
    requires Complete(down, AskOf(calls)) && DecidesAt(calls, n)
    ensures (forall k :: 0 <= k < n ==> !calls[k].WriteHeader?) ==> down[0].code == 200
    ensures forall k: nat :: k < n && IsFirstCode(calls, k) ==> down[0].code == calls[k].code
  {
    if !AnyCode(calls) {
      SentStatus(calls, 0);
    } else {
      var k := FirstCodeExists(calls);
      SentStatus(calls, k);
      UndecidedIff(calls, k);
      if n <= k && n < |calls| {
        assert Deciding(calls, n);
        assert n != k;
      }
    }
  }

  /** Bytes are written by writes only, in order. */
  lemma {:induction false} WrittenConcat(a: seq<Call>, b: seq<Call>)
    ensures Written(a + b) == Written(a) + Written(b)
    ensures |a| == 1 ==> Written(a) == if a[0].Write? then a[0].p else ""
    decreases |b|
  {
    if |a| == 1 {
      assert a[..0] == [];
    }
    if b == [] {
      assert a + b == a && Written(a) + "" == Written(a);
    } else {
      WrittenConcat(a, b[..|b| - 1]);
      assert (a + b)[..|a + b| - 1] == a + b[..|b| - 1];
    }
  }

  /** The writer under a handler that makes `calls`. */
  method RunHandler(calls: seq<Call>) returns (down: seq<Down>)
    ensures Complete(down, AskOf(calls))
  {
    var w := new Writer();
    var i := 0;
    while i < |calls|
      invariant 0 <= i <= |calls| && w.Valid() && w.calls == calls[..i]
    {
      match calls[i] {
        case SetHeaders(h) => w.SetHeaders(h);
        case WriteHeader(c) => w.WriteHeader(c);
        case Write(p) => w.Write(p);
        case Flush => w.Flush();
      }
      assert calls[..i + 1] == calls[..i] + [calls[i]];
      i := i + 1;
    }
    assert calls[..i] == calls;
    w.Finalize();
    down := w.down;
  }

  /**
   * The middleware around a handler that makes `calls`: the client gets exactly the body written, under
   * one header that says how it is encoded, whatever the order and sizes of the calls.
   */
  method ServeWithGzip(calls: seq<Call>) returns (down: seq<Down>)
    ensures down != [] && down[0].Header? && forall i :: 0 < i < |down| ==> !down[i].Header?
    ensures Decoded(down) == Written(calls) && Complete(down, AskOf(calls))
    ensures forall n: nat, h :: DecidesAt(calls, n) && InForce(calls, n, h) ==> Labelled(calls, down, n, h)
  {
    down := RunHandler(calls);
    forall n: nat, h | DecidesAt(calls, n) && InForce(calls, n, h) ensures Labelled(calls, down, n, h) {
      ResponseIsLabelled(calls, down, n, h);
    }
  }
}
