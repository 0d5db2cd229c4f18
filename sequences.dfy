/** Order-preserving list operations the modelled code performs by hand: filtering,
    first-occurrence deduplication, counting, summing and Python's `s[k:]` slice. */
module Sequences {

  function Filter<T>(p: T -> bool, s: seq<T>): (r: seq<T>)
    ensures |r| <= |s|
  {
    if s == [] then [] else (if p(s[0]) then [s[0]] else []) + Filter(p, s[1..])
  }

  /** The filtered sequence holds exactly the elements of `s` that satisfy `p`. */
  lemma {:induction false} FilterSpec<T>(p: T -> bool, s: seq<T>)
    ensures forall i :: 0 <= i < |Filter(p, s)| ==> Filter(p, s)[i] in s && p(Filter(p, s)[i])
    ensures forall i :: 0 <= i < |s| && p(s[i]) ==> s[i] in Filter(p, s)
  {
    if s != [] {
      FilterSpec(p, s[1..]);
      var h := if p(s[0]) then [s[0]] else [];
      var t := Filter(p, s[1..]);
      forall i | 0 <= i < |h + t| ensures (h + t)[i] in s && p((h + t)[i]) {
        if i >= |h| {
          assert (h + t)[i] == t[i - |h|];
          assert t[i - |h|] in s[1..];
        }
      }
      forall i | 0 <= i < |s| && p(s[i]) ensures s[i] in h + t {
        if i > 0 {
          assert s[i] == s[1..][i - 1];
        }
      }
    }
  }

  lemma {:induction false} FilterAppend<T>(p: T -> bool, a: seq<T>, b: seq<T>)
    ensures Filter(p, a + b) == Filter(p, a) + Filter(p, b)
  {
    if a == [] {
      assert a + b == b;
    } else {
      var h := if p(a[0]) then [a[0]] else [];
      assert (a + b)[0] == a[0];
      assert (a + b)[1..] == a[1..] + b;
      calc {
        Filter(p, a + b);
        h + Filter(p, a[1..] + b);
        { FilterAppend(p, a[1..], b); }
        h + (Filter(p, a[1..]) + Filter(p, b));
        (h + Filter(p, a[1..])) + Filter(p, b);
      }
    }
  }

  lemma {:induction false} FilterMultiset<T>(p: T -> bool, s: seq<T>, x: T)
    ensures multiset(Filter(p, s))[x] == if p(x) then multiset(s)[x] else 0
  {
    if s != [] {
      FilterMultiset(p, s[1..], x);
      var h := if p(s[0]) then [s[0]] else [];
      assert s == [s[0]] + s[1..];
      assert Filter(p, s) == h + Filter(p, s[1..]);
      assert multiset(s) == multiset{s[0]} + multiset(s[1..]);
      assert multiset(Filter(p, s)) == multiset(h) + multiset(Filter(p, s[1..]));
    }
  }

  /** Filtering two permutations of each other keeps the same number of elements. */
  lemma FilterPermutationSize<T>(p: T -> bool, a: seq<T>, b: seq<T>)
    requires multiset(a) == multiset(b)
    ensures |Filter(p, a)| == |Filter(p, b)|
  {
    forall x
      ensures multiset(Filter(p, a))[x] == multiset(Filter(p, b))[x]
    {
      FilterMultiset(p, a, x);
      FilterMultiset(p, b, x);
    }
    FilterSpec(p, a);
    FilterSpec(p, b);
    assert multiset(Filter(p, a)) == multiset(Filter(p, b));
    assert |multiset(Filter(p, a))| == |Filter(p, a)|;
    assert |multiset(Filter(p, b))| == |Filter(p, b)|;
  }

  /** Some element of `s` has key `k`. */
  predicate KeyIn<T, K(==)>(key: T -> K, k: K, s: seq<T>) {
    exists i :: 0 <= i < |s| && key(s[i]) == k
  }

  /** No two elements of `s` share a key. */
  predicate DistinctKeys<T, K(==)>(key: T -> K, s: seq<T>) {
    forall i, j :: 0 <= i < j < |s| ==> key(s[i]) != key(s[j])
  }

  /** The loop "append x unless an element with the same key was already appended", run
      over `s` from left to right. */
  function DedupBy<T, K(==)>(key: T -> K, s: seq<T>): seq<T>
    decreases |s|
  {
    if s == [] then []
    else
      var d := DedupBy(key, s[..|s| - 1]);
      if KeyIn(key, key(s[|s| - 1]), d) then d else d + [s[|s| - 1]]
  }

  /** One more step of the deduplicating loop. */
  lemma DedupBySnoc<T, K>(key: T -> K, s: seq<T>, x: T)
    ensures DedupBy(key, s + [x])
         == if KeyIn(key, key(x), DedupBy(key, s)) then DedupBy(key, s) else DedupBy(key, s) + [x]
  {
    assert (s + [x])[..|s|] == s;
  }

  /** Reference definition: keep `s[i]` exactly when no earlier element of `s` has its key. */
  function Firsts<T, K(==)>(key: T -> K, s: seq<T>): seq<T>
    decreases |s|
  {
    if s == [] then []
    else
      var n := |s| - 1;
      Firsts(key, s[..n]) + (if KeyIn(key, key(s[n]), s[..n]) then [] else [s[n]])
  }

  lemma {:induction false} DedupByKeys<T, K>(key: T -> K, s: seq<T>, k: K)
    ensures KeyIn(key, k, DedupBy(key, s)) <==> KeyIn(key, k, s)
    decreases |s|
  {
    if s != [] {
      var n := |s| - 1;
      DedupByKeys(key, s[..n], k);
      var d := DedupBy(key, s[..n]);
      var r := DedupBy(key, s);
      assert r[..|d|] == d;
      if KeyIn(key, k, r) {
        var i :| 0 <= i < |r| && key(r[i]) == k;
        if i < |d| {
          assert r[i] == d[i];
          var j :| 0 <= j < n && key(s[..n][j]) == k;
          assert s[..n][j] == s[j];
        } else {
          assert r[i] == s[n];
        }
      }
      if KeyIn(key, k, s) {
        var i :| 0 <= i < |s| && key(s[i]) == k;
        if i < n {
          assert s[..n][i] == s[i];
          var j :| 0 <= j < |d| && key(d[j]) == k;
          assert r[j] == d[j];
        } else if !KeyIn(key, key(s[n]), d) {
          assert r[|d|] == s[n];
        } else {
          assert r == d;
        }
      }
    }
  }

  /** `DedupBy` keeps the first element for each key, in order, and nothing else. */
  lemma {:induction false} DedupByIsFirsts<T, K>(key: T -> K, s: seq<T>)
    ensures DedupBy(key, s) == Firsts(key, s)
    ensures DistinctKeys(key, DedupBy(key, s))
    ensures forall x :: x in DedupBy(key, s) ==> x in s
    decreases |s|
  {
    if s != [] {
      var n := |s| - 1;
      DedupByIsFirsts(key, s[..n]);
      DedupByKeys(key, s[..n], key(s[n]));
      var d := DedupBy(key, s[..n]);
      if !KeyIn(key, key(s[n]), d) {
        forall i, j | 0 <= i < j < |d + [s[n]]|
          ensures key((d + [s[n]])[i]) != key((d + [s[n]])[j])
        {
          if j == |d| {
            assert (d + [s[n]])[i] == d[i];
          }
        }
      }
      forall x | x in DedupBy(key, s)
        ensures x in s
      {
        if x in d {
          assert x in s[..n];
        }
      }
    }
  }

  lemma KeyInSnoc<T, K>(key: T -> K, k: K, s: seq<T>, x: T)
    ensures KeyIn(key, k, s + [x]) <==> KeyIn(key, k, s) || key(x) == k
  {
    if KeyIn(key, k, s) {
      var i :| 0 <= i < |s| && key(s[i]) == k;
      assert (s + [x])[i] == s[i];
    }
    if key(x) == k {
      assert (s + [x])[|s|] == x;
    }
    if KeyIn(key, k, s + [x]) {
      var i :| 0 <= i < |s + [x]| && key((s + [x])[i]) == k;
      if i < |s| {
        assert (s + [x])[i] == s[i];
      }
    }
  }

  /** The identity, for deduplicating by the element itself. */
  function Id<T>(x: T): T {
    x
  }

  lemma KeyInId<T>(x: T, s: seq<T>)
    ensures KeyIn(Id, x, s) <==> x in s
  {
    if x in s {
      var i :| 0 <= i < |s| && s[i] == x;
      assert Id(s[i]) == x;
    }
  }

  /** One step of deduplicating by the element itself: an element already kept is dropped. */
  lemma DedupIdSnoc<T>(s: seq<T>, x: T)
    ensures DedupBy(Id, s + [x]) == if x in DedupBy(Id, s) then DedupBy(Id, s) else DedupBy(Id, s) + [x]
  {
    DedupBySnoc(Id, s, x);
    KeyInId(x, DedupBy(Id, s));
  }

  /** Deduplicating a list without repetitions keeps all of it. */
  lemma {:induction false} DedupDistinct<T>(p: seq<T>)
    requires Distinct(p)
    ensures DedupBy(Id, p) == p
    decreases |p|
  {
    if p != [] {
      var n := |p| - 1;
      assert p[..n] + [p[n]] == p;
      assert Distinct(p[..n]);
      DedupDistinct(p[..n]);
      DedupIdSnoc(p[..n], p[n]);
    }
  }

  /** Elements that were all kept before add nothing. */
  lemma {:induction false} DedupAbsorbs<T>(p: seq<T>, q: seq<T>)
    requires DedupBy(Id, p) == p
    requires forall i :: 0 <= i < |q| ==> q[i] in p
    ensures DedupBy(Id, p + q) == p
    decreases |q|
  {
    if q == [] {
      assert p + q == p;
    } else {
      var n := |q| - 1;
      DedupAbsorbs(p, q[..n]);
      assert (p + q[..n]) + [q[n]] == p + q;
      DedupIdSnoc(p + q[..n], q[n]);
    }
  }

  /** Deduplicating by the element itself leaves no element twice. */
  lemma DedupIdDistinct<T>(s: seq<T>)
    ensures Distinct(DedupBy(Id, s))
    ensures forall x :: x in DedupBy(Id, s) <==> x in s
  {
    DedupByIsFirsts(Id, s);
    var d := DedupBy(Id, s);
    forall i, j | 0 <= i < j < |d| ensures d[i] != d[j] {
      assert Id(d[i]) != Id(d[j]);
    }
    forall x ensures x in d <==> x in s {
      DedupByKeys(Id, s, x);
      KeyInId(x, d);
      KeyInId(x, s);
    }
  }

  lemma DedupByCovers<T, K>(key: T -> K, s: seq<T>, x: T)
    requires x in s
    ensures exists y :: y in DedupBy(key, s) && key(y) == key(x)
  {
    var i :| 0 <= i < |s| && s[i] == x;
    DedupByKeys(key, s, key(x));
    var d := DedupBy(key, s);
    var j :| 0 <= j < |d| && key(d[j]) == key(x);
    assert d[j] in d;
  }

  function CountIf<T>(p: T -> bool, s: seq<T>): nat {
    |Filter(p, s)|
  }

  function SumOf<T>(f: T -> nat, s: seq<T>): nat {
    if s == [] then 0 else f(s[0]) + SumOf(f, s[1..])
  }

  lemma {:induction false} SumOfAppend<T>(f: T -> nat, a: seq<T>, b: seq<T>)
    ensures SumOf(f, a + b) == SumOf(f, a) + SumOf(f, b)
  {
    if a == [] {
      assert a + b == b;
    } else {
      assert (a + b)[0] == a[0];
      assert (a + b)[1..] == a[1..] + b;
      SumOfAppend(f, a[1..], b);
    }
  }

  /** Python's `s[k:]` for any integer `k`, negative ones counting from the end. */
  function SliceFrom<T>(s: seq<T>, k: int): (r: seq<T>)
    ensures 0 <= k <= |s| ==> r == s[k..]
    ensures k > |s| ==> r == []
    ensures k < 0 ==> r == s[if |s| + k < 0 then 0 else |s| + k..]
  {
    if k >= |s| then []
    else if k >= 0 then s[k..]
    else if |s| + k < 0 then s
    else s[|s| + k..]
  }

  function Concat<T>(parts: seq<seq<T>>): seq<T> {
    if parts == [] then [] else Concat(parts[..|parts| - 1]) + parts[|parts| - 1]
  }

  /** The multiset of a non-empty sequence, split at its last element. */
  lemma MultisetLast<T>(s: seq<T>)
    requires s != []
    ensures multiset(s) == multiset(s[..|s| - 1]) + multiset{s[|s| - 1]}
  {
    assert s == s[..|s| - 1] + [s[|s| - 1]];
  }

  /** The pieces `f` gives for the elements of `s`, in order, one after the other. */
  function ConcatMap<A, B>(f: A -> seq<B>, s: seq<A>): seq<B> {
    if s == [] then [] else ConcatMap(f, s[..|s| - 1]) + f(s[|s| - 1])
  }

  /** Everything in the result comes from the piece of some element, and every piece is in it. */
  lemma {:induction false} ConcatMapSpec<A, B>(f: A -> seq<B>, s: seq<A>)
    ensures forall y :: y in ConcatMap(f, s) ==> exists i :: 0 <= i < |s| && y in f(s[i])
    ensures forall i, y :: 0 <= i < |s| && y in f(s[i]) ==> y in ConcatMap(f, s)
  {
    if s != [] {
      var n := |s| - 1;
      var init := s[..n];
      ConcatMapSpec(f, init);
      assert ConcatMap(f, s) == ConcatMap(f, init) + f(s[n]);
      forall y | y in ConcatMap(f, s)
        ensures exists i :: 0 <= i < |s| && y in f(s[i])
      {
        if y in ConcatMap(f, init) {
          var i :| 0 <= i < |init| && y in f(init[i]);
          assert init[i] == s[i];
        } else {
          assert y in f(s[n]);
        }
      }
      forall i, y | 0 <= i < |s| && y in f(s[i])
        ensures y in ConcatMap(f, s)
      {
        if i < n {
          assert init[i] == s[i];
          assert y in ConcatMap(f, init);
        }
      }
    }
  }

  /** `list.remove(x)` when `x` is present; the list unchanged otherwise. */
  function RemoveFirst<T(==)>(s: seq<T>, x: T): (r: seq<T>)
    ensures x !in s ==> r == s
  {
    if s == [] then []
    else if s[0] == x then s[1..]
    else [s[0]] + RemoveFirst(s[1..], x)
  }

  /** No element occurs twice. */
  predicate Distinct<T(==)>(s: seq<T>) {
    forall i, j :: 0 <= i < j < |s| ==> s[i] != s[j]
  }

  /** From a list without duplicates, `remove` takes out exactly `x`. */
  lemma {:induction false} RemoveFirstDistinct<T>(s: seq<T>, x: T)
    requires Distinct(s)
    ensures Distinct(RemoveFirst(s, x))
    ensures forall y :: y in RemoveFirst(s, x) <==> y in s && y != x
  {
    if s != [] {
      DistinctTail(s);
      if s[0] != x {
        RemoveFirstDistinct(s[1..], x);
        ConsDistinct(s[0], RemoveFirst(s[1..], x));
        assert s == [s[0]] + s[1..];
      }
    }
  }

  lemma ConsDistinct<T>(h: T, r: seq<T>)
    requires Distinct(r) && h !in r
    ensures Distinct([h] + r)
  {
    var c := [h] + r;
    forall i, j | 0 <= i < j < |c| ensures c[i] != c[j] {
      assert c[j] == r[j - 1];
      if i > 0 {
        assert c[i] == r[i - 1];
      }
    }
  }

  lemma DistinctTail<T>(s: seq<T>)
    requires Distinct(s) && s != []
    ensures Distinct(s[1..]) && s[0] !in s[1..]
  {
    forall i, j | 0 <= i < j < |s[1..]| ensures s[1..][i] != s[1..][j] {
      assert s[1..][i] == s[i + 1] && s[1..][j] == s[j + 1];
    }
    forall k | 0 <= k < |s[1..]| ensures s[1..][k] != s[0] {
      assert s[1..][k] == s[k + 1];
    }
  }
}
