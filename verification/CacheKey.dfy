/**
 * Cache keys (`newPublicCachePolicy` and `buildPublicCacheKey` in
 * internal/api/discovery_cache.go).  Strings are byte strings: every character is below 256.
 * Parameter values are the normalised texts of the source.
 */
module CacheKey {
  import opened Sorting

  type ByteString = s: string | forall i :: 0 <= i < |s| ==> s[i] as int < 256 witness ""

  // ---------------------------------------------------------------- url.QueryEscape

  predicate Unreserved(c: char) {
    'a' <= c <= 'z' || 'A' <= c <= 'Z' || '0' <= c <= '9' || c == '-' || c == '_' || c == '.' || c == '~'
  }

  function HexDigit(n: int): char
    requires 0 <= n < 16
  {
    "0123456789ABCDEF"[n]
  }

  function HexValue(c: char): int {
    if '0' <= c <= '9' then c as int - '0' as int else c as int - 'A' as int + 10
  }

  function EscapeByte(c: char): string
    requires c as int < 256
  {
    if Unreserved(c) then [c]
    else if c == ' ' then "+"
    else ['%', HexDigit(c as int / 16), HexDigit(c as int % 16)]
  }

  function QueryEscape(s: ByteString): string {
    if s == "" then "" else EscapeByte(s[0]) + QueryEscape(s[1..])
  }

  function QueryUnescape(t: string): string {
    if t == "" then ""
    else if t[0] == '%' && |t| >= 3 then
      var n := HexValue(t[1]) * 16 + HexValue(t[2]);
      [if 0 <= n < 256 then n as char else '?'] + QueryUnescape(t[3..])
    else [if t[0] == '+' then ' ' else t[0]] + QueryUnescape(t[1..])
  }

  /** By code: letters, digits, `-`, `.`, `_` and `~` stay, a space becomes `+`, other bytes two capital hex digits. */
  lemma EscapeByteIs(c: char)
    requires c as int < 256
    ensures var n := c as int;
            EscapeByte(c) == if 97 <= n <= 122 || 65 <= n <= 90 || 48 <= n <= 57 || n == 45 || n == 46 || n == 95 || n == 126
                             then [c]
                             else if n == 32 then "+"
                             else "%" + ["0123456789ABCDEF"[n / 16]] + ["0123456789ABCDEF"[n % 16]]
  {
  }

  lemma HexRoundTrip(n: int)
    requires 0 <= n < 16
    ensures HexValue(HexDigit(n)) == n && Unreserved(HexDigit(n))
  {
  }

  lemma ByteRoundTrip(c: char, rest: string)
    requires c as int < 256
    ensures QueryUnescape(EscapeByte(c) + rest) == [c] + QueryUnescape(rest)
  {
    var t := EscapeByte(c) + rest;
    if Unreserved(c) || c == ' ' {
      assert t[1..] == rest;
    } else {
      HexRoundTrip(c as int / 16);
      HexRoundTrip(c as int % 16);
      assert t[3..] == rest;
    }
  }

  /** Escaping loses nothing. */
  lemma {:induction false} EscapeRoundTrip(s: ByteString)
    ensures QueryUnescape(QueryEscape(s)) == s
  {
    if s != "" {
      EscapeRoundTrip(s[1..]);
      ByteRoundTrip(s[0], QueryEscape(s[1..]));
    }
  }

  /** Escaped text contains neither separator. */
  lemma {:induction false} EscapeAvoidsSeparators(s: ByteString)
    ensures ':' !in QueryEscape(s) && '=' !in QueryEscape(s)
  {
    if s != "" {
      EscapeAvoidsSeparators(s[1..]);
      HexRoundTrip(s[0] as int / 16);
      HexRoundTrip(s[0] as int % 16);
    }
  }

  // ---------------------------------------------------------------- the key

  function Field(name: string, value: ByteString): string {
    name + "=" + QueryEscape(value)
  }

  function Fields(names: seq<string>, params: map<string, ByteString>): seq<string>
    requires forall i :: 0 <= i < |names| ==> names[i] in params
  {
    seq(|names|, i requires 0 <= i < |names| => Field(names[i], params[names[i]]))
  }

  /** `start`, then every part with a colon in front. */
  function Chain(start: string, parts: seq<string>): string {
    if parts == [] then start else Chain(start, parts[..|parts| - 1]) + ":" + parts[|parts| - 1]
  }

  ghost predicate Lists(names: seq<string>, keys: set<string>) {
    Sorted(StringLess, names) && Elements(names) == keys
  }

  lemma {:induction false} ListingExists(keys: set<string>) returns (names: seq<string>)
    ensures |names| == |keys| && Elements(names) == keys && forall i, j :: 0 <= i < j < |names| ==> names[i] != names[j]
  {
    if keys == {} {
      names := [];
    } else {
      var k :| k in keys;
      var rest := ListingExists(keys - {k});
      names := rest + [k];
      assert Elements(names) == Elements(rest) + {k};
      assert forall i :: 0 <= i < |rest| ==> rest[i] in Elements(rest);
    }
  }

  lemma SortedListingExists(keys: set<string>)
    ensures exists names :: Lists(names, keys)
  {
    var names := ListingExists(keys);
    StringsOrdered(Elements(names));
    SortIsSorted(StringLess, names);
    assert Lists(Sort(StringLess, names), keys);
  }

  ghost function SortedNames(keys: set<string>): (names: seq<string>)
    ensures Lists(names, keys)
    ensures forall i :: 0 <= i < |names| ==> names[i] in keys
  {
    SortedListingExists(keys);
    var names :| Lists(names, keys);
    assert forall i :: 0 <= i < |names| ==> names[i] in Elements(names);
    names
  }

  ghost function KeySpec(scope: string, params: map<string, ByteString>): string {
    Chain(scope, Fields(SortedNames(params.Keys), params))
  }

  lemma NamesSortToSpec(names: seq<string>, keys: set<string>)
    requires Elements(names) == keys && forall i, j :: 0 <= i < j < |names| ==> names[i] != names[j]
    ensures Sort(StringLess, names) == SortedNames(keys)
  {
    StringsOrdered(keys);
    SortIsSorted(StringLess, names);
    SortedUnique(StringLess, Sort(StringLess, names), SortedNames(keys));
  }

  /** The names of a map, in whatever order the map is walked. */
  method MapKeys(params: map<string, ByteString>) returns (keys: seq<string>)
    ensures Elements(keys) == params.Keys && forall i, j :: 0 <= i < j < |keys| ==> keys[i] != keys[j]
  {
    keys := [];
    var todo := params.Keys;
    while todo != {}
      invariant Elements(keys) + todo == params.Keys && Elements(keys) !! todo
      invariant forall i, j :: 0 <= i < j < |keys| ==> keys[i] != keys[j]
      decreases |todo|
    {
      var k :| k in todo;
      assert forall i :: 0 <= i < |keys| ==> keys[i] in Elements(keys);
      assert Elements(keys + [k]) == Elements(keys) + {k};
      keys := keys + [k];
      todo := todo - {k};
    }
  }

  lemma NoNames(params: map<string, ByteString>)
    requires |params| == 0
    ensures SortedNames(params.Keys) == []
  {
    var names := SortedNames(params.Keys);
    var none: seq<string> := [];
    StringsOrdered(Elements(none));
    assert params.Keys == {} == Elements(none);
    SortedUnique(StringLess, none, names);
  }

  method WriteFields(scope: string, names: seq<string>, params: map<string, ByteString>) returns (key: string)
    requires forall i :: 0 <= i < |names| ==> names[i] in params
    ensures key == Chain(scope, Fields(names, params))
  {
    ghost var fields := Fields(names, params);
    key := scope;
    var i := 0;
    while i < |names|
      invariant 0 <= i <= |names|
      invariant key == Chain(scope, fields[..i])
    {
      assert fields[..i + 1][..i] == fields[..i];
      key := key + ":" + names[i] + "=" + QueryEscape(params[names[i]]);
      assert key == Chain(scope, fields[..i]) + ":" + fields[i];
      i := i + 1;
    }
    assert fields[..i] == fields;
  }

  /** Map order does not show in the key. */
  method BuildPublicCacheKey(scope: string, params: map<string, ByteString>) returns (key: string)
    ensures key == KeySpec(scope, params)
  {
    if |params| == 0 {
      NoNames(params);
      return scope;
    }
    var keys := MapKeys(params);
    var names := Sort(StringLess, keys);
    NamesSortToSpec(keys, params.Keys);
    key := WriteFields(scope, names, params);
  }

  // ---------------------------------------------------------------- injectivity

  function Split(s: string): (parts: seq<string>)
    ensures parts != []
  {
    if s == "" then [""]
    else if s[|s| - 1] == ':' then Split(s[..|s| - 1]) + [""]
    else
      var parts := Split(s[..|s| - 1]);
      parts[..|parts| - 1] + [parts[|parts| - 1] + [s[|s| - 1]]]
  }

  lemma {:induction false} SplitPlain(a: string)
    requires ':' !in a
    ensures Split(a) == [a]
  {
    if a != "" {
      SplitPlain(a[..|a| - 1]);
      assert a == a[..|a| - 1] + [a[|a| - 1]];
    }
  }

  lemma {:induction false} SplitLast(s: string, part: string)
    requires ':' !in part
    ensures Split(s + ":" + part) == Split(s) + [part]
    decreases |part|
  {
    var t := s + ":" + part;
    if part == "" {
      assert t[..|t| - 1] == s;
    } else {
      var front := part[..|part| - 1];
      SplitLast(s, front);
      assert t[..|t| - 1] == s + ":" + front;
      assert part == front + [part[|part| - 1]];
    }
  }

  lemma {:induction false} SplitChain(start: string, parts: seq<string>)
    requires forall i :: 0 <= i < |parts| ==> ':' !in parts[i]
    ensures Split(Chain(start, parts)) == Split(start) + parts
  {
    if parts != [] {
      var front := parts[..|parts| - 1];
      SplitChain(start, front);
      SplitLast(Chain(start, front), parts[|parts| - 1]);
      assert parts == front + [parts[|parts| - 1]];
    }
  }

  ghost predicate Plain(s: string) {
    ':' !in s && '=' !in s
  }

  lemma FieldInjective(n: string, v: ByteString, n': string, v': ByteString)
    requires Plain(n) && Plain(n') && Field(n, v) == Field(n', v')
    ensures n == n' && v == v'
  {
    var f := Field(n, v);
    assert f[|n|] == '=' && f[|n'|] == '=';
    assert n == f[..|n|] && n' == f[..|n'|];
    assert f[|n| + 1..] == QueryEscape(v) && f[|n'| + 1..] == QueryEscape(v');
    EscapeRoundTrip(v);
    EscapeRoundTrip(v');
  }

  /** The policy key of a family, an endpoint and its parameters. */
  ghost function PolicyKey(family: string, endpoint: string, params: map<string, ByteString>): string {
    KeySpec(family + ":" + endpoint, params)
  }

  ghost predicate WellNamed(family: string, endpoint: string, params: map<string, ByteString>) {
    ':' !in family && ':' !in endpoint && forall k :: k in params ==> Plain(k)
  }

  lemma PolicyKeySplits(family: string, endpoint: string, params: map<string, ByteString>)
    requires WellNamed(family, endpoint, params)
    ensures Split(PolicyKey(family, endpoint, params)) == [family, endpoint] + Fields(SortedNames(params.Keys), params)
  {
    SplitPlain(family);
    SplitLast(family, endpoint);
    var names := SortedNames(params.Keys);
    forall i | 0 <= i < |names| ensures ':' !in Fields(names, params)[i] {
      EscapeAvoidsSeparators(params[names[i]]);
      assert Plain(names[i]);
    }
    SplitChain(family + ":" + endpoint, Fields(names, params));
  }

  lemma FieldsInjective(p: map<string, ByteString>, p': map<string, ByteString>)
    requires forall k :: k in p ==> Plain(k)
    requires forall k :: k in p' ==> Plain(k)
    requires Fields(SortedNames(p.Keys), p) == Fields(SortedNames(p'.Keys), p')
    ensures p == p'
  {
    var names, names' := SortedNames(p.Keys), SortedNames(p'.Keys);
    assert |names| == |Fields(names, p)| == |names'|;
    forall i | 0 <= i < |names| ensures names[i] == names'[i] && p[names[i]] == p'[names'[i]] {
      assert Fields(names, p)[i] == Fields(names', p')[i];
      FieldInjective(names[i], p[names[i]], names'[i], p'[names'[i]]);
    }
    assert names == names';
    forall k | k in p ensures k in p' && p[k] == p'[k] {
      assert k in Elements(names);
    }
  }

  /** Different questions get different keys. */
  lemma PolicyKeyInjective(f: string, e: string, p: map<string, ByteString>, f': string, e': string,
                           p': map<string, ByteString>)
    requires WellNamed(f, e, p) && WellNamed(f', e', p') && PolicyKey(f, e, p) == PolicyKey(f', e', p')
    ensures f == f' && e == e' && p == p'
  {
    PolicyKeySplits(f, e, p);
    PolicyKeySplits(f', e', p');
    var parts := Split(PolicyKey(f, e, p));
    assert f == parts[0] == f' && e == parts[1] == e';
    assert Fields(SortedNames(p.Keys), p) == parts[2..] == Fields(SortedNames(p'.Keys), p');
    FieldsInjective(p, p');
  }

  /**
   * Why names must not carry a separator: with a colon in endpoint names, every question with one parameter would
   * share its key with a question that has none.  The endpoint names in use are plain.
   */
  lemma ColonInEndpointCollides(f: string, e: string, name: string, value: ByteString)
    ensures PolicyKey(f, e + ":" + Field(name, value), map[]) == PolicyKey(f, e, map[name := value])
  {
    NoNames(map[]);
    NamesSortToSpec([name], {name});
    assert Sort(StringLess, [name]) == [name] by {
      assert [name][..0] == [];
    }
    var p: map<string, ByteString> := map[name := value];
    assert p.Keys == {name};
    var fields := Fields([name], p);
    assert fields == [Field(name, value)];
    assert Chain(f + ":" + e, fields) == (f + ":" + e) + ":" + Field(name, value) by { assert fields[..0] == []; }
    assert (f + ":" + e) + ":" + Field(name, value) == f + ":" + (e + ":" + Field(name, value));
  }
}
