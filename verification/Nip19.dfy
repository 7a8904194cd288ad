/**
 * The TLV part of NIP-19 identifiers (`decodeTLV` in internal/api_primal/primal_v1_stubs.go; section
 * "Shareable identifiers with extra metadata" of NIP-19): records of one type byte, one length byte and
 * that many value bytes.
 */
module Nip19 {
  import opened Common

  newtype Byte = n: int | 0 <= n < 256

  datatype Record = Record(tag: Byte, value: seq<Byte>)

  /** The decoded object; `relays` is left out of it when empty. */
  datatype Decoded = Decoded(hrp: string, identifier: Option<seq<Byte>>, data: Option<string>, pubkey: Option<string>,
                             kind: Option<int>, relays: seq<seq<Byte>>)

  function HexDigit(n: int): char
    requires 0 <= n < 16
  {
    "0123456789abcdef"[n]
  }

  function HexEncode(s: seq<Byte>): string {
    if s == [] then "" else [HexDigit(s[0] as int / 16), HexDigit(s[0] as int % 16)] + HexEncode(s[1..])
  }

  function BigEndian(v: seq<Byte>): int
    requires |v| == 4
  {
    v[0] as int * 0x100_0000 + v[1] as int * 0x1_0000 + v[2] as int * 0x100 + v[3] as int
  }

  // ---------------------------------------------------------------- records

  /** A tail too short to hold the record it announces. */
  predicate Truncated(t: seq<Byte>) {
    |t| < 2 || |t| < 2 + t[1] as int
  }

  /** Where the record at the front of `data` ends. */
  function End(data: seq<Byte>): nat
    requires !Truncated(data)
  {
    2 + (data[1] as int)
  }

  /** The complete records at the front of `data`, and what is left. */
  function Parse(data: seq<Byte>): (seq<Record>, seq<Byte>)
    decreases |data|
  {
    if Truncated(data) then ([], data)
    else
      var rest := Parse(data[End(data)..]);
      ([Record(data[0], data[2..End(data)])] + rest.0, rest.1)
  }

  predicate Encodable(rs: seq<Record>) {
    forall i :: 0 <= i < |rs| ==> |rs[i].value| < 256
  }

  function Encode(rs: seq<Record>): seq<Byte>
    requires Encodable(rs)
  {
    if rs == [] then [] else [rs[0].tag, |rs[0].value| as Byte] + rs[0].value + Encode(rs[1..])
  }

  function EncodeOne(r: Record): seq<Byte>
    requires |r.value| < 256
  {
    [r.tag, |r.value| as Byte] + r.value
  }

  lemma {:induction false} EncodeCons(r: Record, rs: seq<Record>)
    requires |r.value| < 256 && Encodable(rs)
    ensures Encodable([r] + rs) && Encode([r] + rs) == EncodeOne(r) + Encode(rs)
  {
    assert ([r] + rs)[1..] == rs;
  }

  lemma FrontRecord(r: Record, rest: seq<Byte>)
    requires |r.value| < 256
    ensures var data := EncodeOne(r) + rest;
            && !Truncated(data) && End(data) == 2 + |r.value| && data[0] == r.tag
            && data[2..End(data)] == r.value && data[End(data)..] == rest
  {
  }

  /** Parsing splits `data` into records and a truncated tail without losing a byte. */
  lemma {:induction false} ParseIsLossless(data: seq<Byte>)
    ensures Encodable(Parse(data).0) && Truncated(Parse(data).1) && Encode(Parse(data).0) + Parse(data).1 == data
    decreases |data|
  {
    if !Truncated(data) {
      var r, rest := Record(data[0], data[2..End(data)]), data[End(data)..];
      var (rs, tail) := Parse(rest);
      ParseIsLossless(rest);
      assert Parse(data) == ([r] + rs, tail);
      calc {
        Encode([r] + rs) + tail;
        { EncodeCons(r, rs); }
        EncodeOne(r) + Encode(rs) + tail;
        { Associate(EncodeOne(r), Encode(rs), tail); }
        EncodeOne(r) + rest;
        { BackTogether(data); }
        data;
      }
    }
  }

  lemma Associate(a: seq<Byte>, b: seq<Byte>, c: seq<Byte>)
    ensures a + b + c == a + (b + c)
  {
  }

  lemma BackTogether(data: seq<Byte>)
    requires !Truncated(data)
    ensures EncodeOne(Record(data[0], data[2..End(data)])) + data[End(data)..] == data
  {
  }

  /** And it is the only way to split it so. */
  lemma {:induction false} ParseInvertsEncode(rs: seq<Record>, tail: seq<Byte>)
    requires Encodable(rs) && Truncated(tail)
    ensures Parse(Encode(rs) + tail) == (rs, tail)
    decreases |rs|
  {
    if rs == [] {
      assert Encode(rs) + tail == tail;
    } else {
      var r, rest := rs[0], Encode(rs[1..]) + tail;
      ParseInvertsEncode(rs[1..], tail);
      FrontRecord(r, rest);
      assert rs == [r] + rs[1..];
      EncodeCons(r, rs[1..]);
      assert Encode(rs) + tail == EncodeOne(r) + rest;
    }
  }

  // ---------------------------------------------------------------- decoding

  function Start(hrp: string): Decoded {
    Decoded(hrp, None, None, None, None, [])
  }

  function Absorb(d: Decoded, r: Record): Decoded {
    match r.tag
    case 0 =>
      if d.hrp == "naddr" then d.(identifier := Some(r.value))
      else if |r.value| == 32 then d.(data := Some(HexEncode(r.value)))
      else d
    case 1 => d.(relays := d.relays + [r.value])
    case 2 => if |r.value| == 32 then d.(pubkey := Some(HexEncode(r.value))) else d
    case 3 => if |r.value| == 4 then d.(kind := Some(BigEndian(r.value))) else d
    case _ => d
  }

  function AbsorbAll(d: Decoded, rs: seq<Record>): Decoded
    decreases |rs|
  {
    if rs == [] then d else AbsorbAll(Absorb(d, rs[0]), rs[1..])
  }

  lemma ParseAt(data: seq<Byte>, i: nat, d: Decoded)
    requires i <= |data| && !Truncated(data[i..])
    ensures var j := i + 2 + (data[i + 1] as int);
            AbsorbAll(d, Parse(data[i..]).0) == AbsorbAll(Absorb(d, Record(data[i], data[i + 2..j])), Parse(data[j..]).0)
  {
    var front := data[i..];
    var j := i + End(front);
    assert front[2..End(front)] == data[i + 2..j] && front[End(front)..] == data[j..];
    var rs := Parse(front).0;
    assert rs[0] == Record(data[i], data[i + 2..j]) && rs[1..] == Parse(data[j..]).0;
  }

  method DecodeTLV(hrp: string, data: seq<Byte>) returns (out: Decoded)
    ensures out == AbsorbAll(Start(hrp), Parse(data).0)
  {
    out := Start(hrp);
    var i := 0;
    assert data[0..] == data;
    while i + 2 <= |data|
      invariant 0 <= i <= |data| && out.hrp == hrp
      invariant AbsorbAll(Start(hrp), Parse(data).0) == AbsorbAll(out, Parse(data[i..]).0)
      decreases |data| - i
    {
      var tag, n := data[i], data[i + 1] as int;
      if i + 2 + n > |data| {
        break;
      }
      var value := data[i + 2..i + 2 + n];
      ParseAt(data, i, out);
      match tag {
        case 0 =>
          if hrp == "naddr" {
            out := out.(identifier := Some(value));
          } else if |value| == 32 {
            out := out.(data := Some(HexEncode(value)));
          }
        case 1 => out := out.(relays := out.relays + [value]);
        case 2 =>
          if |value| == 32 {
            out := out.(pubkey := Some(HexEncode(value)));
          }
        case 3 =>
          if |value| == 4 {
            out := out.(kind := Some(BigEndian(value)));
          }
        case _ =>
      }
      i := i + 2 + n;
    }
  }

  // ---------------------------------------------------------------- what a record list means

  /** The values of the records of one type, in order. */
  function Values(rs: seq<Record>, tag: Byte): seq<seq<Byte>> {
    if rs == [] then []
    else
      var rest, last := Values(rs[..|rs| - 1], tag), rs[|rs| - 1];
      if last.tag == tag then rest + [last.value] else rest
  }

  /** The last value of length `n`. */
  function LastSized(vs: seq<seq<Byte>>, n: nat): Option<seq<Byte>> {
    if vs == [] then None
    else if |vs[|vs| - 1]| == n then Some(vs[|vs| - 1])
    else LastSized(vs[..|vs| - 1], n)
  }

  function Hex(v: Option<seq<Byte>>): Option<string> {
    match v case None => None case Some(b) => Some(HexEncode(b))
  }

  function KindOf(v: Option<seq<Byte>>): Option<int> {
    if v.Some? && |v.value| == 4 then Some(BigEndian(v.value)) else None
  }

  function FieldsFrom(hrp: string, v0: seq<seq<Byte>>, v1: seq<seq<Byte>>, v2: seq<seq<Byte>>,
                      v3: seq<seq<Byte>>): Decoded {
    Decoded(hrp,
            if hrp == "naddr" && v0 != [] then Some(v0[|v0| - 1]) else None,
            if hrp == "naddr" then None else Hex(LastSized(v0, 32)),
            Hex(LastSized(v2, 32)), KindOf(LastSized(v3, 4)), v1)
  }

  /** Field by field: the last well-sized value of each type, and all relays in order. */
  function FieldsOf(hrp: string, rs: seq<Record>): Decoded {
    FieldsFrom(hrp, Values(rs, 0), Values(rs, 1), Values(rs, 2), Values(rs, 3))
  }

  lemma {:induction false} AbsorbAppend(d: Decoded, rs: seq<Record>, r: Record)
    ensures AbsorbAll(d, rs + [r]) == Absorb(AbsorbAll(d, rs), r)
    decreases |rs|
  {
    if rs == [] {
      assert rs + [r] == [r];
      assert AbsorbAll(Absorb(d, r), [r][1..]) == Absorb(d, r);
    } else {
      AbsorbAppend(Absorb(d, rs[0]), rs[1..], r);
      assert (rs + [r])[1..] == rs[1..] + [r];
    }
  }

  lemma ValuesAppend(rs: seq<Record>, r: Record, tag: Byte)
    ensures Values(rs + [r], tag) == if r.tag == tag then Values(rs, tag) + [r.value] else Values(rs, tag)
  {
    assert (rs + [r])[..|rs|] == rs;
  }

  lemma LastSizedAppend(vs: seq<seq<Byte>>, v: seq<Byte>, n: nat)
    ensures LastSized(vs + [v], n) == if |v| == n then Some(v) else LastSized(vs, n)
  {
    assert (vs + [v])[..|vs|] == vs;
  }

  /** Decoding is that reading, for every list of records. */
  lemma {:induction false} DecodeIsFieldwise(hrp: string, rs: seq<Record>)
    ensures AbsorbAll(Start(hrp), rs) == FieldsOf(hrp, rs)
    decreases |rs|
  {
    if rs != [] {
      var front, r := rs[..|rs| - 1], rs[|rs| - 1];
      assert rs == front + [r];
      DecodeIsFieldwise(hrp, front);
      AbsorbAppend(Start(hrp), front, r);
      FieldsAppend(hrp, front, r);
    }
  }

  lemma FieldsAppend(hrp: string, rs: seq<Record>, r: Record)
    ensures FieldsOf(hrp, rs + [r]) == Absorb(FieldsOf(hrp, rs), r)
  {
    ValuesAppend(rs, r, 0);
    ValuesAppend(rs, r, 1);
    ValuesAppend(rs, r, 2);
    ValuesAppend(rs, r, 3);
    FieldsFromAppend(hrp, Values(rs, 0), Values(rs, 1), Values(rs, 2), Values(rs, 3), r);
  }

  lemma FieldsFromAppend(hrp: string, v0: seq<seq<Byte>>, v1: seq<seq<Byte>>, v2: seq<seq<Byte>>, v3: seq<seq<Byte>>,
                         r: Record)
    ensures Absorb(FieldsFrom(hrp, v0, v1, v2, v3), r) ==
            FieldsFrom(hrp, if r.tag == 0 then v0 + [r.value] else v0, if r.tag == 1 then v1 + [r.value] else v1,
                       if r.tag == 2 then v2 + [r.value] else v2, if r.tag == 3 then v3 + [r.value] else v3)
  {
    match r.tag
    case 0 => LastSizedAppend(v0, r.value, 32);
    case 1 =>
    case 2 => LastSizedAppend(v2, r.value, 32);
    case 3 => LastSizedAppend(v3, r.value, 4);
    case _ =>
  }

  lemma {:induction false} ValuesConcat(a: seq<Record>, b: seq<Record>, tag: Byte)
    ensures Values(a + b, tag) == Values(a, tag) + Values(b, tag)
    decreases |b|
  {
    if b == [] {
      assert a + b == a;
    } else {
      var front, last := b[..|b| - 1], b[|b| - 1];
      ValuesConcat(a, front, tag);
      ValuesAppend(a + front, last, tag);
      ValuesAppend(front, last, tag);
      assert a + b == a + front + [last] && b == front + [last];
    }
  }

  /** Records of an unknown type change nothing, wherever they stand. */
  lemma UnknownRecordIgnored(hrp: string, a: seq<Record>, u: Record, b: seq<Record>)
    requires u.tag > 3
    ensures AbsorbAll(Start(hrp), a + [u] + b) == AbsorbAll(Start(hrp), a + b)
  {
    DecodeIsFieldwise(hrp, a + [u] + b);
    DecodeIsFieldwise(hrp, a + b);
    forall tag: Byte | tag <= 3 ensures Values(a + [u] + b, tag) == Values(a + b, tag) {
      ValuesConcat(a + [u], b, tag);
      ValuesAppend(a, u, tag);
      ValuesConcat(a, b, tag);
    }
  }

  // ---------------------------------------------------------------- shareable identifiers

  datatype Shareable =
    | NProfile(pubkey: seq<Byte>, relays: seq<seq<Byte>>)
    | NEvent(id: seq<Byte>, relays: seq<seq<Byte>>, author: Option<seq<Byte>>, kind: Option<int>)
    | NAddr(identifier: seq<Byte>, relays: seq<seq<Byte>>, author: Option<seq<Byte>>, kind: Option<int>)

  function ToBigEndian(k: int): seq<Byte>
    requires 0 <= k < 0x1_0000_0000
  {
    var b2 := k / 0x100;
    var b1 := b2 / 0x100;
    [(b1 / 0x100) as Byte, (b1 % 0x100) as Byte, (b2 % 0x100) as Byte, (k % 0x100) as Byte]
  }

  lemma BigEndianRoundTrip(k: int)
    requires 0 <= k < 0x1_0000_0000
    ensures BigEndian(ToBigEndian(k)) == k
  {
  }

  predicate WellFormed(s: Shareable) {
    match s
    case NProfile(pubkey, _) => |pubkey| == 32
    case NEvent(id, _, author, kind) => |id| == 32 && OptionalKey(author) && OptionalKind(kind)
    case NAddr(_, _, author, kind) => OptionalKey(author) && OptionalKind(kind)
  }

  predicate OptionalKey(k: Option<seq<Byte>>) {
    k.Some? ==> |k.value| == 32
  }

  predicate OptionalKind(k: Option<int>) {
    k.Some? ==> 0 <= k.value < 0x1_0000_0000
  }

  function Author(s: Shareable): Option<seq<Byte>> {
    if s.NProfile? then None else s.author
  }

  function Kind(s: Shareable): Option<int> {
    if s.NProfile? then None else s.kind
  }

  function Special(s: Shareable): seq<Byte> {
    match s
    case NProfile(pubkey, _) => pubkey
    case NEvent(id, _, _, _) => id
    case NAddr(identifier, _, _, _) => identifier
  }

  function Prefix(s: Shareable): string {
    match s
    case NProfile(_, _) => "nprofile"
    case NEvent(_, _, _, _) => "nevent"
    case NAddr(_, _, _, _) => "naddr"
  }

  lemma PrefixesAre(s: Shareable)
    ensures (s.NProfile? <==> Prefix(s) == "nprofile") && (s.NEvent? <==> Prefix(s) == "nevent")
    ensures s.NAddr? <==> Prefix(s) == "naddr"
  {
    assert |"nprofile"| == 8 && |"nevent"| == 6 && |"naddr"| == 5;
  }

  /** The records carry exactly `s`, in any order and among any others. */
  predicate Carries(rs: seq<Record>, s: Shareable)
    requires WellFormed(s)
  {
    && Values(rs, 0) == [Special(s)]
    && Values(rs, 1) == s.relays
    && Values(rs, 2) == (if Author(s).Some? then [Author(s).value] else [])
    && Values(rs, 3) == (if Kind(s).Some? then [ToBigEndian(Kind(s).value)] else [])
  }

  function Meaning(s: Shareable): Decoded {
    Decoded(Prefix(s),
            if s.NAddr? then Some(s.identifier) else None,
            if s.NAddr? then None else Some(HexEncode(Special(s))),
            Hex(Author(s)), Kind(s), s.relays)
  }

  lemma LastSizedOne(v: seq<Byte>, n: nat)
    ensures LastSized([v], n) == if |v| == n then Some(v) else None
  {
    assert [v][..0] == [];
  }

  /** Decoding an encoded identifier gives it back, whatever truncated bytes follow. */
  lemma DecodeInvertsEncode(s: Shareable, rs: seq<Record>, tail: seq<Byte>)
    requires WellFormed(s) && Carries(rs, s) && Encodable(rs) && Truncated(tail)
    ensures AbsorbAll(Start(Prefix(s)), Parse(Encode(rs) + tail).0) == Meaning(s)
  {
    ParseInvertsEncode(rs, tail);
    DecodeIsFieldwise(Prefix(s), rs);
    LastSizedOne(Special(s), 32);
    if Author(s).Some? {
      LastSizedOne(Author(s).value, 32);
    }
    if Kind(s).Some? {
      LastSizedOne(ToBigEndian(Kind(s).value), 4);
      BigEndianRoundTrip(Kind(s).value);
    }
    assert Prefix(s) == "naddr" <==> s.NAddr?;
  }

  function HexValue(c: char): int {
    if '0' <= c <= '9' then c as int - '0' as int else c as int - 'a' as int + 10
  }

  function HexDecode(t: string): seq<int> {
    if |t| < 2 then [] else [HexValue(t[0]) * 16 + HexValue(t[1])] + HexDecode(t[2..])
  }

  /** The hexadecimal fields determine the bytes. */
  lemma {:induction false} HexRoundTrip(s: seq<Byte>)
    ensures HexDecode(HexEncode(s)) == seq(|s|, i requires 0 <= i < |s| => s[i] as int)
  {
    if s != [] {
      HexRoundTrip(s[1..]);
      var t := HexEncode(s);
      assert t[2..] == HexEncode(s[1..]);
      HexDigitValue(s[0] as int / 16);
      HexDigitValue(s[0] as int % 16);
    }
  }

  lemma HexDigitValue(n: int)
    requires 0 <= n < 16
    ensures HexValue(HexDigit(n)) == n
  {
  }
}
