/** Sorting by a strict order, and the byte-wise order of strings that Go's `<` uses. */
module Sorting {

  /** `less` is a strict total order on the elements of `S`. */
  ghost predicate Orders<T(!new)>(less: (T, T) -> bool, S: set<T>) {
    && (forall x :: x in S ==> !less(x, x))
    && (forall x, y :: x in S && y in S && x != y ==> less(x, y) || less(y, x))
    && (forall x, y, z :: x in S && y in S && z in S && less(x, y) && less(y, z) ==> less(x, z))
  }

  ghost predicate Sorted<T(!new)>(less: (T, T) -> bool, s: seq<T>) {
    forall i, j :: 0 <= i < j < |s| ==> less(s[i], s[j])
  }

  function Elements<T>(s: seq<T>): set<T> {
    set x | x in s
  }

  /** Insert after every element that `x` is not less than, so equal elements keep their order. */
  function Insert<T(!new)>(less: (T, T) -> bool, x: T, s: seq<T>): seq<T> {
    if s == [] then [x]
    else if less(x, s[|s| - 1]) then Insert(less, x, s[..|s| - 1]) + [s[|s| - 1]]
    else s + [x]
  }

  /** What a stable library sort returns. */
  function Sort<T(!new)>(less: (T, T) -> bool, s: seq<T>): seq<T> {
    if s == [] then [] else Insert(less, s[|s| - 1], Sort(less, s[..|s| - 1]))
  }

  lemma {:induction false} InsertElements<T(!new)>(less: (T, T) -> bool, x: T, s: seq<T>)
    ensures Elements(Insert(less, x, s)) == Elements(s) + {x} && |Insert(less, x, s)| == |s| + 1
  {
    if s != [] {
      assert s == s[..|s| - 1] + [s[|s| - 1]];
      if less(x, s[|s| - 1]) {
        InsertElements(less, x, s[..|s| - 1]);
        var r := Insert(less, x, s[..|s| - 1]);
        assert Elements(r + [s[|s| - 1]]) == Elements(r) + {s[|s| - 1]};
      }
    }
  }

  lemma {:induction false} InsertSorted<T(!new)>(less: (T, T) -> bool, x: T, s: seq<T>)
    requires Orders(less, Elements(s) + {x}) && x !in s && Sorted(less, s)
    ensures Sorted(less, Insert(less, x, s))
  {
    if s != [] {
      var last := s[|s| - 1];
      if less(x, last) {
        var front := s[..|s| - 1];
        InsertSorted(less, x, front);
        InsertElements(less, x, front);
        var r := Insert(less, x, front);
        forall i | 0 <= i < |r| ensures less(r[i], last) {
          assert r[i] in Elements(r);
          if r[i] != x {
            var j :| 0 <= j < |front| && front[j] == r[i];
            assert less(s[j], last);
          }
        }
      } else {
        assert last in Elements(s);
        forall i | 0 <= i < |s| ensures less(s[i], x) {
          assert s[i] in Elements(s);
          assert i < |s| - 1 ==> less(s[i], last);
        }
      }
    }
  }

  /** Sorting distinct elements lists them in strictly increasing order. */
  lemma {:induction false} SortIsSorted<T(!new)>(less: (T, T) -> bool, s: seq<T>)
    requires Orders(less, Elements(s))
    requires forall i, j :: 0 <= i < j < |s| ==> s[i] != s[j]
    ensures Sorted(less, Sort(less, s)) && Elements(Sort(less, s)) == Elements(s) && |Sort(less, s)| == |s|
  {
    if s != [] {
      var front, last := s[..|s| - 1], s[|s| - 1];
      assert s == front + [last];
      assert Elements(front) + {last} == Elements(s);
      SortIsSorted(less, front);
      var sorted := Sort(less, front);
      assert last in sorted ==> last in Elements(sorted);
      InsertElements(less, last, sorted);
      InsertSorted(less, last, sorted);
    }
  }

  /** A set has only one sorted listing. */
  lemma {:induction false} SortedUnique<T(!new)>(less: (T, T) -> bool, a: seq<T>, b: seq<T>)
    requires Orders(less, Elements(a)) && Elements(a) == Elements(b) && Sorted(less, a) && Sorted(less, b)
    ensures a == b
  {
    if a == [] {
      assert forall k :: 0 <= k < |b| ==> b[k] in Elements(b);
    } else {
      assert a[0] in Elements(a);
      SameFirst(less, a, b);
      var a', b' := a[1..], b[1..];
      assert a == [a[0]] + a' && b == [b[0]] + b';
      TailElements(less, a);
      TailElements(less, b);
      SortedUnique(less, a', b');
    }
  }

  lemma SameFirst<T(!new)>(less: (T, T) -> bool, a: seq<T>, b: seq<T>)
    requires Orders(less, Elements(a)) && Elements(a) == Elements(b) && Sorted(less, a) && Sorted(less, b) && a != []
    ensures b != [] && a[0] == b[0]
  {
    assert a[0] in Elements(b);
    var i :| 0 <= i < |b| && b[i] == a[0];
    assert b[0] in Elements(a);
    var j :| 0 <= j < |a| && a[j] == b[0];
    assert forall k :: 0 <= k < |b| ==> b[k] == b[0] || less(b[0], b[k]);
  }

  lemma TailElements<T(!new)>(less: (T, T) -> bool, a: seq<T>)
    requires a != [] && Orders(less, Elements(a)) && Sorted(less, a)
    ensures Elements(a[1..]) == Elements(a) - {a[0]}
  {
    assert a == [a[0]] + a[1..];
    assert a[0] in Elements(a);
    assert forall i :: 0 <= i < |a| - 1 ==> less(a[0], a[1..][i]);
  }

  // ---------------------------------------------------------------- strings

  predicate StringLess(a: string, b: string) {
    if b == [] then false
    else if a == [] then true
    else if a[0] == b[0] then StringLess(a[1..], b[1..])
    else a[0] < b[0]
  }

  lemma {:induction false} StringTotal(a: string, b: string)
    ensures !StringLess(a, a) && (a != b ==> StringLess(a, b) || StringLess(b, a))
  {
    if a != [] {
      StringTotal(a[1..], if b == [] then [] else b[1..]);
      if b != [] && a[0] == b[0] {
        assert a == [a[0]] + a[1..] && b == [b[0]] + b[1..];
      }
    }
  }

  lemma {:induction false} StringTransitive(a: string, b: string, c: string)
    requires StringLess(a, b) && StringLess(b, c)
    ensures StringLess(a, c)
  {
    if a != [] && a[0] == b[0] == c[0] {
      StringTransitive(a[1..], b[1..], c[1..]);
    }
  }

  /** `a` is smaller: a proper prefix, or smaller where they first differ. */
  ghost predicate SmallerAt(a: string, b: string, i: nat) {
    i <= |a| && i < |b| && a[..i] == b[..i] && (i < |a| ==> a[i] < b[i])
  }

  lemma SmallerTail(a: string, b: string, i: nat)
    requires a != [] && b != [] && a[0] == b[0]
    ensures SmallerAt(a, b, i + 1) <==> SmallerAt(a[1..], b[1..], i)
  {
    if i + 1 <= |a| && i + 1 < |b| {
      assert a[..i + 1] == [a[0]] + a[1..][..i] && b[..i + 1] == [b[0]] + b[1..][..i];
      assert a[1..][..i] == a[..i + 1][1..] && b[1..][..i] == b[..i + 1][1..];
    }
  }

  lemma {:induction false} StringLessIff(a: string, b: string)
    ensures StringLess(a, b) <==> exists i: nat :: SmallerAt(a, b, i)
  {
    if a != [] && b != [] && a[0] == b[0] {
      StringLessIff(a[1..], b[1..]);
      if i: nat :| SmallerAt(a[1..], b[1..], i) {
        SmallerTail(a, b, i);
      }
      if i: nat :| SmallerAt(a, b, i) {
        assert i > 0;
        SmallerTail(a, b, i - 1);
      }
    } else {
      assert SmallerAt(a, b, 0) <==> b != [] && (a == [] || a[0] < b[0]);
      if a != [] && b != [] {
        assert forall i: nat :: 0 < i <= |a| && i <= |b| ==> a[..i][0] == a[0] && b[..i][0] == b[0];
      }
    }
  }

  lemma StringsOrdered(S: set<string>)
    ensures Orders(StringLess, S)
  {
    forall x, y ensures !StringLess(x, x) && (x != y ==> StringLess(x, y) || StringLess(y, x)) {
      StringTotal(x, y);
    }
    forall x, y, z | StringLess(x, y) && StringLess(y, z) ensures StringLess(x, z) {
      StringTransitive(x, y, z);
    }
  }
}
