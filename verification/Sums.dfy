/** Finite sums over lists, and the fact that they do not depend on the order of the list. */
module Sums {

  function SumBy<T>(s: seq<T>, f: T -> real): real {
    if s == [] then 0.0 else f(s[0]) + SumBy(s[1..], f)
  }

  function CountBy<T>(s: seq<T>, f: T -> nat): nat {
    if s == [] then 0 else f(s[0]) + CountBy(s[1..], f)
  }

  lemma CountCons<T>(x: T, s: seq<T>, f: T -> nat)
    ensures CountBy([x] + s, f) == f(x) + CountBy(s, f)
  {
    assert ([x] + s)[1..] == s;
  }

  lemma CountSingle<T>(x: T, f: T -> nat)
    ensures CountBy([x], f) == f(x)
  {
    assert [x][1..] == [];
  }

  lemma {:induction false} SumAppend<T>(a: seq<T>, b: seq<T>, f: T -> real)
    ensures SumBy(a + b, f) == SumBy(a, f) + SumBy(b, f)
  {
    if a == [] {
      assert a + b == b;
    } else {
      assert (a + b)[1..] == a[1..] + b;
      SumAppend(a[1..], b, f);
    }
  }

  lemma {:induction false} CountAppend<T>(a: seq<T>, b: seq<T>, f: T -> nat)
    ensures CountBy(a + b, f) == CountBy(a, f) + CountBy(b, f)
  {
    if a == [] {
      assert a + b == b;
    } else {
      assert (a + b)[1..] == a[1..] + b;
      CountAppend(a[1..], b, f);
    }
  }

  /** Splits a list around one occurrence of `x`. */
  ghost function Ones<T>(s: seq<T>, f: T -> nat): set<int> {
    set i | 0 <= i < |s| && f(s[i]) == 1
  }

  /** A count of zeros and ones is the number of positions that hold a one. */
  lemma {:induction false} CountIsNumber<T>(s: seq<T>, f: T -> nat)
    requires forall i :: 0 <= i < |s| ==> f(s[i]) <= 1
    ensures CountBy(s, f) == |Ones(s, f)|
  {
    if s != [] {
      var front, last := s[..|s| - 1], s[|s| - 1];
      assert s == front + [last];
      CountIsNumber(front, f);
      CountAppend(front, [last], f);
      CountSingle(last, f);
      assert Ones(s, f) == Ones(front, f) + if f(last) == 1 then {|front|} else {};
    }
  }

  lemma SplitAround<T>(s: seq<T>, x: T) returns (i: nat)
    requires x in s
    ensures i < |s| && s[i] == x && s == s[..i] + [x] + s[i + 1..]
    ensures multiset(s) == multiset(s[..i] + s[i + 1..]) + multiset{x}
  {
    i :| 0 <= i < |s| && s[i] == x;
    assert s == s[..i] + [x] + s[i + 1..];
  }

  lemma {:induction false} SumPermutation<T>(a: seq<T>, b: seq<T>, f: T -> real)
    requires multiset(a) == multiset(b)
    ensures SumBy(a, f) == SumBy(b, f)
  {
    if a == [] {
      assert |multiset(b)| == |b|;
    } else {
      assert a[0] in multiset(b) && a == [a[0]] + a[1..];
      var i := SplitAround(b, a[0]);
      assert multiset(a[1..]) == multiset(a) - multiset{a[0]};
      SumPermutation(a[1..], b[..i] + b[i + 1..], f);
      SumAround(b[..i], a[0], b[i + 1..], f);
    }
  }

  lemma SumAround<T>(p: seq<T>, x: T, q: seq<T>, f: T -> real)
    ensures SumBy(p + [x] + q, f) == f(x) + SumBy(p + q, f)
  {
    SumAppend(p + [x], q, f);
    SumAppend(p, [x], f);
    SumAppend(p, q, f);
    assert [x][1..] == [];
  }

  lemma {:induction false} CountPermutation<T>(a: seq<T>, b: seq<T>, f: T -> nat)
    requires multiset(a) == multiset(b)
    ensures CountBy(a, f) == CountBy(b, f)
  {
    if a == [] {
      assert |multiset(b)| == |b|;
    } else {
      assert a[0] in multiset(b) && a == [a[0]] + a[1..];
      var i := SplitAround(b, a[0]);
      assert multiset(a[1..]) == multiset(a) - multiset{a[0]};
      CountPermutation(a[1..], b[..i] + b[i + 1..], f);
      CountAround(b[..i], a[0], b[i + 1..], f);
    }
  }

  lemma CountAround<T>(p: seq<T>, x: T, q: seq<T>, f: T -> nat)
    ensures CountBy(p + [x] + q, f) == f(x) + CountBy(p + q, f)
  {
    CountAppend(p + [x], q, f);
    CountAppend(p, [x], f);
    CountAppend(p, q, f);
    assert [x][1..] == [];
  }

  ghost predicate Distinct<T>(s: seq<T>) {
    forall i, j :: 0 <= i < j < |s| ==> s[i] != s[j]
  }

  /** Two lists without repetition that have the same members are permutations of one another. */
  lemma DistinctSameMembers<T>(a: seq<T>, b: seq<T>)
    requires Distinct(a) && Distinct(b)
    requires forall x :: x in a <==> x in b
    ensures multiset(a) == multiset(b)
  {
    forall x ensures multiset(a)[x] == multiset(b)[x] {
      DistinctMultiplicity(a, x);
      DistinctMultiplicity(b, x);
    }
  }

  lemma DistinctConcat<T>(a: seq<T>, b: seq<T>)
    requires Distinct(a) && Distinct(b) && forall x :: x in a ==> x !in b
    ensures Distinct(a + b)
  {
    forall i, j | 0 <= i < j < |a + b| ensures (a + b)[i] != (a + b)[j] {
      if i < |a| <= j {
        assert a[i] in a && b[j - |a|] in b;
      }
    }
  }

  lemma {:induction false} DistinctMultiplicity<T>(s: seq<T>, x: T)
    requires Distinct(s)
    ensures multiset(s)[x] == if x in s then 1 else 0
  {
    if s == [] {
    } else {
      DistinctMultiplicity(s[1..], x);
      assert s == [s[0]] + s[1..];
    }
  }

  /** Some listing of a finite set, each member once. */
  ghost function Listing<T(!new)>(s: set<T>): (r: seq<T>)
    ensures Distinct(r)
    ensures forall x :: x in r <==> x in s
    ensures |r| == |s|
  {
    if s == {} then [] else
      var x :| x in s;
      var rest := Listing(s - {x});
      [x] + rest
  }

  // ---- Flattening ----

  function Collect<T, R>(s: seq<T>, f: T -> seq<R>): seq<R> {
    if s == [] then [] else f(s[0]) + Collect(s[1..], f)
  }

  lemma {:induction false} CollectAppend<T, R>(a: seq<T>, b: seq<T>, f: T -> seq<R>)
    ensures Collect(a + b, f) == Collect(a, f) + Collect(b, f)
  {
    if a == [] {
      assert a + b == b;
    } else {
      assert (a + b)[1..] == a[1..] + b;
      CollectAppend(a[1..], b, f);
    }
  }

  lemma CollectNone<T, R>(f: T -> seq<R>)
    ensures Collect<T, R>([], f) == []
  {
  }

  lemma CollectSingle<T, R>(x: T, f: T -> seq<R>)
    ensures Collect([x], f) == f(x)
  {
    assert Collect([x], f) == f(x) + [];
  }

  lemma CollectStep<T, R>(s: seq<T>, i: nat, f: T -> seq<R>)
    requires i < |s|
    ensures Collect(s[..i + 1], f) == Collect(s[..i], f) + f(s[i])
  {
    assert s[..i + 1] == s[..i] + [s[i]];
    CollectAppend(s[..i], [s[i]], f);
    CollectSingle(s[i], f);
  }

  lemma Extended<T>(base: seq<T>, done: seq<T>, more: seq<T>)
    ensures base + done + more == base + (done + more)
  {
  }

  lemma {:induction false} CollectPermutation<T, R>(a: seq<T>, b: seq<T>, f: T -> seq<R>)
    requires multiset(a) == multiset(b)
    ensures multiset(Collect(a, f)) == multiset(Collect(b, f))
  {
    if a == [] {
      assert |multiset(b)| == |b|;
    } else {
      assert a[0] in multiset(b) && a == [a[0]] + a[1..];
      var i := SplitAround(b, a[0]);
      assert multiset(a[1..]) == multiset(a) - multiset{a[0]};
      CollectPermutation(a[1..], b[..i] + b[i + 1..], f);
      CollectAround(b[..i], a[0], b[i + 1..], f);
    }
  }

  lemma CollectAround<T, R>(p: seq<T>, x: T, q: seq<T>, f: T -> seq<R>)
    ensures multiset(Collect(p + [x] + q, f)) == multiset(f(x)) + multiset(Collect(p + q, f))
  {
    CollectAppend(p + [x], q, f);
    CollectAppend(p, [x], f);
    CollectAppend(p, q, f);
    CollectSingle(x, f);
  }

  lemma {:induction false} CollectAgrees<T, R>(s: seq<T>, f: T -> seq<R>, g: T -> seq<R>)
    requires forall x :: x in s ==> f(x) == g(x)
    ensures Collect(s, f) == Collect(s, g)
  {
    if s == [] {
    } else {
      assert s[0] in s && forall x :: x in s[1..] ==> x in s;
      CollectAgrees(s[1..], f, g);
    }
  }

  function Then<T, R, S>(f: T -> seq<R>, g: R -> seq<S>): T -> seq<S> {
    x => Collect(f(x), g)
  }

  lemma {:induction false} CollectTwice<T, R, S>(s: seq<T>, f: T -> seq<R>, g: R -> seq<S>)
    ensures Collect(Collect(s, f), g) == Collect(s, Then(f, g))
  {
    if s == [] {
    } else {
      CollectAppend(f(s[0]), Collect(s[1..], f), g);
      CollectTwice(s[1..], f, g);
    }
  }

  // ---- Counting dictionaries ----

  function Get<K>(m: map<K, nat>, k: K): nat {
    if k in m then m[k] else 0
  }

  function Lookup<K>(m: map<K, nat>): K -> nat {
    k => Get(m, k)
  }

  /** The sum of all entries. */
  ghost function MapTotal<K>(m: map<K, nat>): nat {
    if m == map[] then 0 else
      var k :| k in m;
      m[k] + MapTotal(m - {k})
  }

  /** Any entry may be taken out first. */
  lemma {:induction false} MapTotalRemove<K>(m: map<K, nat>, k: K)
    requires k in m
    ensures MapTotal(m) == m[k] + MapTotal(m - {k})
    decreases m.Keys
  {
    var first :| first in m && MapTotal(m) == m[first] + MapTotal(m - {first});
    if first != k {
      MapTotalRemove(m - {first}, k);
      MapTotalRemove(m - {k}, first);
      assert m - {first} - {k} == m - {k} - {first};
    }
  }

  lemma {:induction false} SumAgrees<T>(s: seq<T>, f: T -> real, g: T -> real)
    requires forall x :: x in s ==> f(x) == g(x)
    ensures SumBy(s, f) == SumBy(s, g)
  {
    if s != [] {
      assert s[0] in s;
      assert forall x :: x in s[1..] ==> x in s;
      SumAgrees(s[1..], f, g);
    }
  }

  lemma {:induction false} CountAgrees<T>(s: seq<T>, f: T -> nat, g: T -> nat)
    requires forall x :: x in s ==> f(x) == g(x)
    ensures CountBy(s, f) == CountBy(s, g)
  {
    if s == [] {
    } else {
      assert s[0] in s;
      assert forall x :: x in s[1..] ==> x in s;
      CountAgrees(s[1..], f, g);
    }
  }

  /** The total of the entries listed by `keys`. */
  lemma {:induction false} MapTotalListing<K>(m: map<K, nat>, keys: seq<K>)
    requires Distinct(keys) && forall k :: k in keys <==> k in m
    ensures MapTotal(m) == CountBy(keys, Lookup(m))
    decreases |keys|
  {
    if keys == [] {
      assert m == map[];
    } else {
      var k, rest := keys[0], keys[1..];
      assert keys == [k] + rest;
      MapTotalRemove(m, k);
      DistinctMultiplicity(keys, k);
      assert forall x :: x in keys <==> x == k || x in rest;
      MapTotalListing(m - {k}, rest);
      CountAgrees(rest, Lookup(m - {k}), Lookup(m));
    }
  }

  /** Adding to one entry adds that much to the total. */
  lemma MapTotalAdd<K>(m: map<K, nat>, k: K, d: nat)
    ensures MapTotal(m[k := Get(m, k) + d]) == MapTotal(m) + d
  {
    var m' := m[k := Get(m, k) + d];
    MapTotalRemove(m', k);
    if k in m {
      MapTotalRemove(m, k);
      assert m' - {k} == m - {k};
    } else {
      assert m' - {k} == m;
    }
  }

  ghost predicate NoZeros<K>(m: map<K, nat>) {
    forall k :: k in m ==> m[k] > 0
  }

  function Increment<K>(m: map<K, nat>, k: K, d: nat): map<K, nat> {
    m[k := Get(m, k) + d]
  }

  lemma IncrementAdds<K>(m: map<K, nat>, k: K, d: nat)
    requires NoZeros(m) && d > 0
    ensures NoZeros(Increment(m, k, d))
    ensures forall x :: Get(Increment(m, k, d), x) == Get(m, x) + if x == k then d else 0
    ensures MapTotal(Increment(m, k, d)) == MapTotal(m) + d
  {
    MapTotalAdd(m, k, d);
  }

  /** Two counting dictionaries without zero entries are equal when they count alike. */
  lemma CountsDetermineMap<K>(a: map<K, nat>, b: map<K, nat>)
    requires NoZeros(a) && NoZeros(b)
    requires forall k :: Get(a, k) == Get(b, k)
    ensures a == b
  {
    forall k ensures k in a <==> k in b {
      assert Get(a, k) == Get(b, k);
    }
    forall k | k in a ensures a[k] == b[k] {
      assert Get(a, k) == Get(b, k);
    }
  }

  // ---- First occurrences ----

  /** The members of `s` outside `seen`, each at its first occurrence. */
  function FirstSeen<T(==)>(s: seq<T>, seen: set<T>): seq<T> {
    if s == [] then []
    else if s[0] in seen then FirstSeen(s[1..], seen)
    else [s[0]] + FirstSeen(s[1..], seen + {s[0]})
  }

  lemma {:induction false} FirstSeenMembers<T>(s: seq<T>, seen: set<T>)
    ensures Distinct(FirstSeen(s, seen))
    ensures forall x :: x in FirstSeen(s, seen) <==> x in s && x !in seen
  {
    if s == [] {
    } else {
      assert s == [s[0]] + s[1..];
      if s[0] in seen {
        FirstSeenMembers(s[1..], seen);
      } else {
        FirstSeenMembers(s[1..], seen + {s[0]});
        var rest := FirstSeen(s[1..], seen + {s[0]});
        assert forall i :: 0 <= i < |rest| ==> rest[i] in rest;
      }
    }
  }

  /** The position of the first occurrence of `x`. */
  function FirstAt<T(==)>(s: seq<T>, x: T): (i: nat)
    requires x in s
    ensures i < |s| && s[i] == x && x !in s[..i]
  {
    if s[0] == x then 0
    else
      var i := FirstAt(s[1..], x);
      assert s[..i + 1] == [s[0]] + s[1..][..i];
      i + 1
  }

  lemma FirstAtLater<T>(s: seq<T>, x: T)
    requires s != [] && x in s[1..] && x != s[0]
    ensures x in s && FirstAt(s, x) == FirstAt(s[1..], x) + 1
  {
  }

  /** What is listed earlier in `r` occurs earlier in `s`. */
  ghost predicate InOrder<T>(s: seq<T>, r: seq<T>) {
    && (forall i :: 0 <= i < |r| ==> r[i] in s)
    && (forall i, j :: 0 <= i < j < |r| ==> FirstAt(s, r[i]) < FirstAt(s, r[j]))
  }

  lemma {:induction false} FirstSeenInOrder<T>(s: seq<T>, seen: set<T>)
    ensures InOrder(s, FirstSeen(s, seen))
  {
    if s != [] {
      var seen' := if s[0] in seen then seen else seen + {s[0]};
      var rest := FirstSeen(s[1..], seen');
      FirstSeenInOrder(s[1..], seen');
      FirstSeenMembers(s[1..], seen');
      forall i | 0 <= i < |rest| ensures rest[i] in s && FirstAt(s, rest[i]) == FirstAt(s[1..], rest[i]) + 1 {
        assert rest[i] in rest;
        FirstAtLater(s, rest[i]);
      }
      assert FirstSeen(s, seen) == if s[0] in seen then rest else [s[0]] + rest;
    }
  }

  lemma {:induction false} FirstSeenAppend<T>(a: seq<T>, b: seq<T>, seen: set<T>)
    ensures FirstSeen(a + b, seen) == FirstSeen(a, seen) + FirstSeen(b, seen + set x | x in a)
  {
    if a == [] {
      assert a + b == b;
      assert seen + (set x | x in a) == seen;
    } else {
      assert (a + b)[1..] == a[1..] + b;
      assert a == [a[0]] + a[1..];
      if a[0] in seen {
        FirstSeenAppend(a[1..], b, seen);
        assert seen + (set x | x in a) == seen + set x | x in a[1..];
      } else {
        FirstSeenAppend(a[1..], b, seen + {a[0]});
        assert seen + (set x | x in a) == seen + {a[0]} + set x | x in a[1..];
      }
    }
  }

  lemma {:induction false} FirstSeenOfDistinct<T>(s: seq<T>, seen: set<T>)
    requires Distinct(s) && forall x :: x in s ==> x !in seen
    ensures FirstSeen(s, seen) == s
  {
    if s == [] {
    } else {
      assert s == [s[0]] + s[1..];
      DistinctMultiplicity(s, s[0]);
      FirstSeenOfDistinct(s[1..], seen + {s[0]});
    }
  }

  // ---- Products, kept out of the solver's sight ----

  function Product(a: nat, b: nat): nat {
    a * b
  }

  lemma ProductStep(a: nat, b: nat)
    ensures Product(a + 1, b) == Product(a, b) + b && Product(a, b + 1) == Product(a, b) + a
    ensures Product(0, b) == 0
  {
  }
}
