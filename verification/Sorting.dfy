/** Python's `sorted` as a stable insertion sort over a comparison, the facts that make its result
    unique, and the code-point order on strings. */
module Sorting {

  ghost predicate TotalPreorder<T(!new)>(le: (T, T) -> bool) {
    && (forall x, y :: le(x, y) || le(y, x))
    && (forall x, y, z :: le(x, y) && le(y, z) ==> le(x, z))
  }

  ghost predicate SortedBy<T>(le: (T, T) -> bool, s: seq<T>) {
    forall i, j :: 0 <= i < j < |s| ==> le(s[i], s[j])
  }

  /** No two different members of `s` are equivalent under `le`. */
  ghost predicate AntisymmetricOn<T>(le: (T, T) -> bool, s: seq<T>) {
    forall x, y :: x in s && y in s && le(x, y) && le(y, x) ==> x == y
  }

  function InsertInOrder<T>(x: T, s: seq<T>, le: (T, T) -> bool): seq<T> {
    if s == [] || le(x, s[0]) then [x] + s else [s[0]] + InsertInOrder(x, s[1..], le)
  }

  /** Stable: an element is placed before the later ones it is equivalent to. */
  function Sort<T>(s: seq<T>, le: (T, T) -> bool): seq<T> {
    if s == [] then [] else InsertInOrder(s[0], Sort(s[1..], le), le)
  }

  lemma {:induction false} InsertAdds<T>(x: T, s: seq<T>, le: (T, T) -> bool)
    ensures multiset(InsertInOrder(x, s, le)) == multiset(s) + multiset{x}
  {
    if s == [] || le(x, s[0]) {
    } else {
      InsertAdds(x, s[1..], le);
      HeadAndRest(s);
    }
  }

  lemma {:induction false} InsertKeepsOrder<T(!new)>(x: T, s: seq<T>, le: (T, T) -> bool)
    requires TotalPreorder(le) && SortedBy(le, s)
    ensures SortedBy(le, InsertInOrder(x, s, le))
  {
    if s == [] {
    } else if le(x, s[0]) {
      assert forall j :: 0 < j < |s| ==> le(s[0], s[j]);
    } else {
      var rest := InsertInOrder(x, s[1..], le);
      InsertKeepsOrder(x, s[1..], le);
      InsertAdds(x, s[1..], le);
      forall j | 0 <= j < |rest| ensures le(s[0], rest[j]) {
        MemberOf(rest, j, x, s[1..]);
        if rest[j] != x {
          SortedHead(s, rest[j], le);
        }
      }
    }
  }

  lemma MemberOf<T>(rest: seq<T>, j: nat, x: T, s: seq<T>)
    requires j < |rest| && multiset(rest) == multiset(s) + multiset{x}
    ensures rest[j] == x || rest[j] in s
  {
    assert rest[j] in multiset(rest);
  }

  lemma {:induction false} SortIsSortedPermutation<T(!new)>(s: seq<T>, le: (T, T) -> bool)
    requires TotalPreorder(le)
    ensures SortedBy(le, Sort(s, le))
    ensures multiset(Sort(s, le)) == multiset(s)
    ensures |Sort(s, le)| == |s|
  {
    if s == [] {
    } else {
      SortIsSortedPermutation(s[1..], le);
      InsertKeepsOrder(s[0], Sort(s[1..], le), le);
      InsertAdds(s[0], Sort(s[1..], le), le);
      HeadAndRest(s);
      assert |multiset(Sort(s, le))| == |multiset(s)|;
    }
  }

  /** A sorted list is determined by its multiset when equivalent members are equal. */
  lemma {:induction false} SortedUnique<T>(a: seq<T>, b: seq<T>, le: (T, T) -> bool)
    requires SortedBy(le, a) && SortedBy(le, b) && multiset(a) == multiset(b)
    requires AntisymmetricOn(le, a)
    ensures a == b
  {
    assert |multiset(a)| == |a| && |multiset(b)| == |b|;
    if a == [] {
    } else {
      assert a[0] in multiset(a) && b[0] in multiset(b);
      SortedHead(a, b[0], le);
      SortedHead(b, a[0], le);
      assert a[0] == b[0];
      HeadAndRest(a);
      HeadAndRest(b);
      assert forall x :: x in a[1..] ==> x in a;
      SortedUnique(a[1..], b[1..], le);
    }
  }

  lemma SortedHead<T>(s: seq<T>, x: T, le: (T, T) -> bool)
    requires SortedBy(le, s) && x in s
    ensures s[0] == x || le(s[0], x)
  {
  }

  lemma HeadAndRest<T>(s: seq<T>)
    requires s != []
    ensures multiset(s[1..]) == multiset(s) - multiset{s[0]}
  {
    assert s == [s[0]] + s[1..];
  }

  /** Sorting forgets the order of its input. */
  lemma SortPermutationInvariant<T(!new)>(a: seq<T>, b: seq<T>, le: (T, T) -> bool)
    requires TotalPreorder(le) && multiset(a) == multiset(b) && AntisymmetricOn(le, a)
    ensures Sort(a, le) == Sort(b, le)
  {
    SortIsSortedPermutation(a, le);
    SortIsSortedPermutation(b, le);
    forall x, y | x in Sort(a, le) && y in Sort(a, le) && le(x, y) && le(y, x) ensures x == y {
      assert x in multiset(a) && y in multiset(a);
    }
    SortedUnique(Sort(a, le), Sort(b, le), le);
  }

  /** Sorting a sorted list changes nothing. */
  lemma {:induction false} SortOfSorted<T>(s: seq<T>, le: (T, T) -> bool)
    requires SortedBy(le, s)
    ensures Sort(s, le) == s
  {
    if s == [] {
    } else {
      SortOfSorted(s[1..], le);
      assert s == [s[0]] + s[1..];
      if |s| > 1 {
        assert le(s[0], s[1]);
      }
    }
  }

  // ---- Strings, compared code point by code point ----

  predicate StrLe(a: string, b: string) {
    if a == [] then true
    else if b == [] then false
    else if a[0] != b[0] then a[0] < b[0]
    else StrLe(a[1..], b[1..])
  }

  lemma {:induction false} StrTotal(a: string, b: string)
    ensures StrLe(a, b) || StrLe(b, a)
    ensures StrLe(a, b) && StrLe(b, a) ==> a == b
  {
    if a != [] && b != [] && a[0] == b[0] {
      StrTotal(a[1..], b[1..]);
      assert a == [a[0]] + a[1..] && b == [b[0]] + b[1..];
    }
  }

  /** At position i the strings first differ, and there `a` has the smaller character. */
  predicate LessAt(a: string, b: string, i: nat) {
    i < |a| && i < |b| && a[..i] == b[..i] && a[i] < b[i]
  }

  /** The order of code points: a prefix comes first, otherwise the first difference decides. */
  lemma {:induction false} StrLeIff(a: string, b: string)
    ensures StrLe(a, b) <==> a <= b || exists i: nat :: LessAt(a, b, i)
  {
    if a != [] && b != [] {
      StrLeIff(a[1..], b[1..]);
      if a[0] == b[0] {
        assert a <= b <==> a[1..] <= b[1..];
        if i: nat :| LessAt(a[1..], b[1..], i) {
          LessLater(a, b, i);
        }
        if i: nat :| LessAt(a, b, i) {
          LessEarlier(a, b, i);
        }
      } else if a[0] < b[0] {
        assert LessAt(a, b, 0);
      }
    }
  }

  lemma LessLater(a: string, b: string, i: nat)
    requires a != [] && b != [] && a[0] == b[0] && LessAt(a[1..], b[1..], i)
    ensures LessAt(a, b, i + 1)
  {
    assert a[..i + 1] == [a[0]] + a[1..][..i] && b[..i + 1] == [b[0]] + b[1..][..i];
  }

  lemma LessEarlier(a: string, b: string, i: nat)
    requires a != [] && b != [] && a[0] == b[0] && LessAt(a, b, i)
    ensures i > 0 && LessAt(a[1..], b[1..], i - 1)
  {
    assert a[1..][..i - 1] == a[..i][1..] && b[1..][..i - 1] == b[..i][1..];
  }

  lemma {:induction false} StrTransitive(a: string, b: string, c: string)
    requires StrLe(a, b) && StrLe(b, c)
    ensures StrLe(a, c)
  {
    if a != [] && b != [] && c != [] && a[0] == b[0] && b[0] == c[0] {
      StrTransitive(a[1..], b[1..], c[1..]);
    }
  }

  lemma StrOrder()
    ensures TotalPreorder(StrLe)
    ensures forall a, b :: StrLe(a, b) && StrLe(b, a) ==> a == b
  {
    forall a, b ensures StrLe(a, b) || StrLe(b, a) { StrTotal(a, b); }
    forall a, b | StrLe(a, b) && StrLe(b, a) ensures a == b { StrTotal(a, b); }
    forall a, b, c | StrLe(a, b) && StrLe(b, c) ensures StrLe(a, c) { StrTransitive(a, b, c); }
  }
}
