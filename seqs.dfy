/** Sequence operations the scripts get from JavaScript arrays: a stable
    sort (Array.prototype.sort), `filter` and `slice(0, n)`. */
module Seqs {

  function Min(a: int, b: int): int { if a <= b then a else b }

  /** `le(a, b)`: the comparator lets `a` stand before `b` (it returns a value <= 0). */
  ghost predicate TotalPreorder<T(!new)>(le: (T, T) -> bool) {
    && (forall a, b :: le(a, b) || le(b, a))
    && (forall a, b, c :: le(a, b) && le(b, c) ==> le(a, c))
  }

  ghost predicate SortedBy<T>(s: seq<T>, le: (T, T) -> bool) {
    forall i, j :: 0 <= i < j < |s| ==> le(s[i], s[j])
  }

  /** Insert `x` before the first element it may stand before. */
  function Insert<T>(x: T, s: seq<T>, le: (T, T) -> bool): (r: seq<T>)
    ensures |r| == |s| + 1
  {
    if s == [] then [x]
    else if le(x, s[0]) then [x] + s
    else [s[0]] + Insert(x, s[1..], le)
  }

  /** A stable sort: insertion sort keeps elements the comparator ties in
      their input order, as Array.prototype.sort does. */
  function SortBy<T>(s: seq<T>, le: (T, T) -> bool): (r: seq<T>)
    ensures |r| == |s|
  {
    if s == [] then [] else Insert(s[0], SortBy(s[1..], le), le)
  }

  lemma {:induction false} InsertPerm<T>(x: T, s: seq<T>, le: (T, T) -> bool)
    ensures multiset(Insert(x, s, le)) == multiset{x} + multiset(s)
  {
    if s != [] && !le(x, s[0]) {
      InsertPerm(x, s[1..], le);
      assert s == [s[0]] + s[1..];
    }
  }

  /** The sort only reorders its input. */
  lemma {:induction false} SortByPerm<T>(s: seq<T>, le: (T, T) -> bool)
    ensures multiset(SortBy(s, le)) == multiset(s)
  {
    if s != [] {
      SortByPerm(s[1..], le);
      InsertPerm(s[0], SortBy(s[1..], le), le);
      assert s == [s[0]] + s[1..];
    }
  }

  lemma {:induction false} InsertSorted<T(!new)>(x: T, s: seq<T>, le: (T, T) -> bool)
    requires TotalPreorder(le)
    requires SortedBy(s, le)
    ensures SortedBy(Insert(x, s, le), le)
  {
    if s != [] && !le(x, s[0]) {
      var t := Insert(x, s[1..], le);
      InsertSorted(x, s[1..], le);
      InsertPerm(x, s[1..], le);
      var r := [s[0]] + t;
      assert Insert(x, s, le) == r;
      forall j | 0 < j < |r| ensures le(r[0], r[j]) {
        assert r[j] == t[j - 1];
        assert r[j] in multiset(t);
        if r[j] != x {
          assert r[j] in multiset(s[1..]);
          var k :| 0 <= k < |s[1..]| && s[1..][k] == r[j];
          assert s[k + 1] == r[j];
        }
      }
    }
  }

  /** The sort's output is ordered by the comparator. */
  lemma {:induction false} SortBySorted<T(!new)>(s: seq<T>, le: (T, T) -> bool)
    requires TotalPreorder(le)
    ensures SortedBy(SortBy(s, le), le)
  {
    if s != [] {
      SortBySorted(s[1..], le);
      InsertSorted(s[0], SortBy(s[1..], le), le);
    }
  }

  ghost predicate Tied<T>(le: (T, T) -> bool, a: T, b: T) {
    le(a, b) && le(b, a)
  }

  /** The elements of `s` tied with `z`, in order. */
  ghost function TiedWith<T>(s: seq<T>, le: (T, T) -> bool, z: T): seq<T> {
    if s == [] then []
    else (if Tied(le, s[0], z) then [s[0]] else []) + TiedWith(s[1..], le, z)
  }

  lemma {:induction false} TiedWithCons<T>(x: T, s: seq<T>, le: (T, T) -> bool, z: T)
    ensures TiedWith([x] + s, le, z) == (if Tied(le, x, z) then [x] else []) + TiedWith(s, le, z)
  {
    assert ([x] + s)[1..] == s;
  }

  lemma {:induction false} InsertTied<T(!new)>(x: T, s: seq<T>, le: (T, T) -> bool, z: T)
    requires TotalPreorder(le)
    ensures TiedWith(Insert(x, s, le), le, z) == TiedWith([x] + s, le, z)
  {
    if s != [] && !le(x, s[0]) {
      var t := Insert(x, s[1..], le);
      var A := if Tied(le, s[0], z) then [s[0]] else [];
      var B := if Tied(le, x, z) then [x] else [];
      var R := TiedWith(s[1..], le, z);
      // were both tied with z, x could stand before s[0]
      assert A == [] || B == [];
      assert Insert(x, s, le) == [s[0]] + t;
      InsertTied(x, s[1..], le, z);
      TiedWithCons(s[0], t, le, z);
      TiedWithCons(x, s[1..], le, z);
      TiedWithCons(x, s, le, z);
      assert s == [s[0]] + s[1..];
      TiedWithCons(s[0], s[1..], le, z);
      calc {
        TiedWith(Insert(x, s, le), le, z);
        A + TiedWith(t, le, z);
        A + (B + R);
        { if A == [] { assert A + (B + R) == B + R; } else { assert B + R == R; } }
        B + (A + R);
        B + TiedWith(s, le, z);
        TiedWith([x] + s, le, z);
      }
    }
  }

  /** Stability: within every tie class the sort keeps the input order. */
  lemma {:induction false} SortByStable<T(!new)>(s: seq<T>, le: (T, T) -> bool, z: T)
    requires TotalPreorder(le)
    ensures TiedWith(SortBy(s, le), le, z) == TiedWith(s, le, z)
  {
    if s != [] {
      SortByStable(s[1..], le, z);
      InsertTied(s[0], SortBy(s[1..], le), le, z);
      TiedWithCons(s[0], SortBy(s[1..], le), le, z);
      TiedWithCons(s[0], s[1..], le, z);
      assert s == [s[0]] + s[1..];
    }
  }

  /** The head of the sorted sequence is the first of the least elements of
      the input: everything may stand after it, and nothing before it in the
      input may stand before it. */
  lemma {:induction false} SortByHead<T(!new)>(s: seq<T>, le: (T, T) -> bool) returns (k: nat)
    requires TotalPreorder(le)
    requires s != []
    ensures k < |s| && SortBy(s, le)[0] == s[k]
    ensures forall j :: 0 <= j < |s| ==> le(s[k], s[j])
    ensures forall j :: 0 <= j < k ==> !le(s[j], s[k])
  {
    var t := SortBy(s[1..], le);
    assert SortBy(s, le) == Insert(s[0], t, le);
    if s[1..] == [] {
      k := 0;
    } else {
      var k' := SortByHead(s[1..], le);
      assert t[0] == s[k' + 1];
      if le(s[0], t[0]) {
        k := 0;
        forall j | 0 < j < |s| ensures le(s[0], s[j]) {
          assert s[j] == s[1..][j - 1];
          assert le(s[k' + 1], s[j]);
        }
      } else {
        k := k' + 1;
        forall j | 0 < j < |s| ensures le(s[k], s[j]) {
          assert s[j] == s[1..][j - 1];
        }
        forall j | 0 < j < k ensures !le(s[j], s[k]) {
          assert s[j] == s[1..][j - 1];
        }
      }
    }
  }

  /** `s.filter(p)` */
  function Filter<T>(s: seq<T>, p: T -> bool): (r: seq<T>)
    ensures |r| <= |s|
  {
    if s == [] then [] else (if p(s[0]) then [s[0]] else []) + Filter(s[1..], p)
  }

  /** Exactly the elements that pass the predicate are kept. */
  lemma {:induction false} FilterMembers<T>(s: seq<T>, p: T -> bool)
    ensures forall y :: y in Filter(s, p) <==> y in s && p(y)
  {
    if s != [] {
      FilterMembers(s[1..], p);
      assert s == [s[0]] + s[1..];
    }
  }

  /** An element of the sorted filtered sequence is an element of the input
      that passes the predicate. */
  lemma SortFilterMember<T>(s: seq<T>, p: T -> bool, le: (T, T) -> bool, x: T)
    requires x in SortBy(Filter(s, p), le)
    ensures x in s && p(x)
  {
    SortByPerm(Filter(s, p), le);
    assert x in multiset(SortBy(Filter(s, p), le));
    FilterMembers(s, p);
  }

  /** Sorting the elements that pass a predicate gives them in order. */
  lemma SortFilterSpec<T(!new)>(s: seq<T>, p: T -> bool, le: (T, T) -> bool)
    requires TotalPreorder(le)
    ensures SortedBy(SortBy(Filter(s, p), le), le)
    ensures forall x :: x in SortBy(Filter(s, p), le) <==> x in s && p(x)
  {
    SortBySorted(Filter(s, p), le);
    SortByPerm(Filter(s, p), le);
    FilterMembers(s, p);
    assert forall x :: x in SortBy(Filter(s, p), le) <==> x in multiset(SortBy(Filter(s, p), le));
  }

  /** Nothing passes exactly when no element satisfies the predicate. */
  /** A predicate and its negation split a sequence between them. */
  lemma {:induction false} FilterSplit<T>(s: seq<T>, p: T -> bool, q: T -> bool)
    requires forall x :: q(x) == !p(x)
    ensures multiset(Filter(s, p)) + multiset(Filter(s, q)) == multiset(s)
    decreases |s|
  {
    if s != [] {
      var t := s[1..];
      FilterSplit(t, p, q);
      assert s == [s[0]] + t;
      assert multiset(s) == multiset{s[0]} + multiset(t);
      if p(s[0]) {
        assert Filter(s, p) == [s[0]] + Filter(t, p);
        assert multiset(Filter(s, p)) == multiset{s[0]} + multiset(Filter(t, p));
        assert Filter(s, q) == Filter(t, q);
      } else {
        assert Filter(s, p) == Filter(t, p);
        assert Filter(s, q) == [s[0]] + Filter(t, q);
        assert multiset(Filter(s, q)) == multiset{s[0]} + multiset(Filter(t, q));
      }
    }
  }

  lemma {:induction false} FilterEmpty<T>(s: seq<T>, p: T -> bool)
    ensures Filter(s, p) == [] <==> forall x :: x in s ==> !p(x)
  {
    if s != [] {
      FilterEmpty(s[1..], p);
      assert s == [s[0]] + s[1..];
    }
  }

  lemma {:induction false} FilterConcat<T>(a: seq<T>, b: seq<T>, p: T -> bool)
    ensures Filter(a + b, p) == Filter(a, p) + Filter(b, p)
  {
    if a == [] {
      assert a + b == b;
    } else {
      var h := if p(a[0]) then [a[0]] else [];
      assert (a + b)[0] == a[0];
      assert (a + b)[1..] == a[1..] + b;
      FilterConcat(a[1..], b, p);
      calc {
        Filter(a + b, p);
        h + Filter(a[1..] + b, p);
        h + (Filter(a[1..], p) + Filter(b, p));
        (h + Filter(a[1..], p)) + Filter(b, p);
        Filter(a, p) + Filter(b, p);
      }
    }
  }

  /** The predicate passing what passes both `p` and `q`. */
  function Both<T>(p: T -> bool, q: T -> bool): T -> bool {
    x => p(x) && q(x)
  }

  /** A filter that keeps as many elements as it is given keeps them all. */
  lemma {:induction false} FilterFull<T>(s: seq<T>, p: T -> bool)
    requires |Filter(s, p)| == |s|
    ensures Filter(s, p) == s
  {
    if s != [] {
      FilterFull(s[1..], p);
    }
  }

  /** Filtering twice keeps what passes both. */
  lemma {:induction false} FilterFilter<T>(s: seq<T>, p: T -> bool, q: T -> bool)
    ensures Filter(Filter(s, p), q) == Filter(s, Both(p, q))
  {
    if s != [] {
      FilterFilter(s[1..], p, q);
      FilterConcat(if p(s[0]) then [s[0]] else [], Filter(s[1..], p), q);
    }
  }

  /** Nothing is dropped when every element passes. */
  lemma {:induction false} FilterAll<T>(s: seq<T>, p: T -> bool)
    requires forall x :: x in s ==> p(x)
    ensures Filter(s, p) == s
  {
    if s != [] {
      assert forall x :: x in s[1..] ==> x in s;
      FilterAll(s[1..], p);
    }
  }

  /** Predicates that agree on the elements filter alike. */
  lemma {:induction false} FilterAgree<T>(s: seq<T>, p: T -> bool, q: T -> bool)
    requires forall x :: x in s ==> p(x) == q(x)
    ensures Filter(s, p) == Filter(s, q)
  {
    if s != [] {
      assert forall x :: x in s[1..] ==> x in s;
      FilterAgree(s[1..], p, q);
    }
  }

  /** `s.slice(0, n)` */
  function Take<T>(s: seq<T>, n: nat): (r: seq<T>)
    ensures |r| == Min(n, |s|)
    ensures r == s[..Min(n, |s|)]
  {
    if |s| <= n then s else s[..n]
  }


  /** `sort(le).slice(0, n)` keeps `min(n, |s|)` elements of `s`, in order,
      and every element left out may stand after every element kept. */
  lemma TakeSorted<T(!new)>(s: seq<T>, le: (T, T) -> bool, n: nat)
    requires TotalPreorder(le)
    ensures var d := SortBy(s, le);
            var k := Min(n, |s|);
            && Take(d, n) == d[..k]
            && multiset(s) == multiset(d[..k]) + multiset(d[k..])
            && SortedBy(d[..k], le)
            && forall x, y :: x in multiset(d[k..]) && y in multiset(d[..k]) ==> le(y, x)
  {
    var d := SortBy(s, le);
    SortByPerm(s, le);
    SortBySorted(s, le);
    SplitMultiset(d, Min(n, |s|));
    SortedSplit(d, le, Min(n, |s|));
  }

  lemma SplitMultiset<T>(d: seq<T>, k: nat)
    requires k <= |d|
    ensures multiset(d) == multiset(d[..k]) + multiset(d[k..])
  {
    assert d == d[..k] + d[k..];
  }

  /** In a sorted sequence every element of a prefix may stand before every
      element after it. */
  lemma SortedSplit<T>(d: seq<T>, le: (T, T) -> bool, k: nat)
    requires SortedBy(d, le) && k <= |d|
    ensures SortedBy(d[..k], le)
    ensures forall x, y :: x in multiset(d[k..]) && y in multiset(d[..k]) ==> le(y, x)
  {
    forall x, y | x in multiset(d[k..]) && y in multiset(d[..k]) ensures le(y, x) {
      var j :| 0 <= j < |d[k..]| && d[k..][j] == x;
      var i :| 0 <= i < |d[..k]| && d[..k][i] == y;
      assert d[i] == y && d[k + j] == x;
    }
  }

  /** `a.reverse()` */
  function Reverse<T>(s: seq<T>): (r: seq<T>)
    ensures |r| == |s|
    ensures forall i :: 0 <= i < |s| ==> r[i] == s[|s| - 1 - i]
    decreases |s|
  {
    if s == [] then [] else [s[|s| - 1]] + Reverse(s[..|s| - 1])
  }

  /** `[...new Set(s)]`: each value once, where it first occurs. */
  function Unique<T(==)>(s: seq<T>): (r: seq<T>)
    ensures |r| <= |s|
    ensures forall i :: 0 <= i < |r| ==> r[i] in s
    decreases |s|
  {
    if s == [] then []
    else
      var r := Unique(s[..|s| - 1]);
      if s[|s| - 1] in r then r else r + [s[|s| - 1]]
  }

  /** The index of the first occurrence of `x` in `s`. */
  function FirstIndex<T(==)>(s: seq<T>, x: T): (i: nat)
    requires x in s
    ensures i < |s| && s[i] == x && x !in s[..i]
  {
    if s[0] == x then 0
    else
      assert x in s[1..];
      var j := FirstIndex(s[1..], x);
      assert s[..j + 1] == [s[0]] + s[1..][..j];
      j + 1
  }

  lemma FirstIndexExtend<T>(s: seq<T>, x: T, y: T)
    requires y in s
    ensures FirstIndex(s + [x], y) == FirstIndex(s, y)
  {
    var i := FirstIndex(s, y);
    assert (s + [x])[..i] == s[..i];
    assert (s + [x])[i] == y;
  }

  lemma FirstIndexLast<T>(s: seq<T>, x: T)
    requires x !in s
    ensures FirstIndex(s + [x], x) == |s|
  {
    assert (s + [x])[..|s|] == s;
  }

  /** The unique values are those of the input, none twice, in the order of
      their first occurrences. */
  lemma {:induction false} UniqueSpec<T>(s: seq<T>)
    ensures forall x :: x in Unique(s) <==> x in s
    ensures forall i, j :: 0 <= i < j < |Unique(s)| ==> Unique(s)[i] != Unique(s)[j]
    ensures forall i, j :: 0 <= i < j < |Unique(s)| ==> FirstIndex(s, Unique(s)[i]) < FirstIndex(s, Unique(s)[j])
    decreases |s|
  {
    if s != [] {
      var s', x := s[..|s| - 1], s[|s| - 1];
      UniqueSpec(s');
      assert s == s' + [x];
      var r' := Unique(s');
      forall y | y in s' ensures FirstIndex(s, y) == FirstIndex(s', y) {
        FirstIndexExtend(s', x, y);
      }
      if x !in r' {
        FirstIndexLast(s', x);
        forall i | 0 <= i < |r'| ensures FirstIndex(s, r'[i]) < |s'| {
          assert r'[i] in r';
        }
      }
    }
  }
}
