/** Deduplication through a JavaScript `Map` keyed by a record field:
    `Array.from(new Map(xs.map(x => [key(x), x])).values())`. */
module Dedup {
  import opened Seqs

  /** Index of the first element of `r` whose key is `k`, or `|r|` when there is none. */
  function FindKey<T, K(==)>(r: seq<T>, k: K, key: T -> K): (j: nat)
    ensures j <= |r|
    ensures j < |r| ==> key(r[j]) == k
    ensures forall i :: 0 <= i < j ==> key(r[i]) != k
  {
    if r == [] then 0
    else if key(r[0]) == k then 0
    else 1 + FindKey(r[1..], k, key)
  }

  /** `Array.from(new Map(s.map(x => [key(x), x])).values())`: one element per
      key, at the position where the key was first set, holding the value set last. */
  function DedupByKey<T, K(==)>(s: seq<T>, key: T -> K): (r: seq<T>)
    ensures |r| <= |s|
    decreases |s|
  {
    if s == [] then []
    else
      var r := DedupByKey(s[..|s| - 1], key);
      var x := s[|s| - 1];
      var j := FindKey(r, key(x), key);
      if j < |r| then r[j := x] else r + [x]
  }

  ghost function Keys<T, K>(r: seq<T>, key: T -> K): (ks: seq<K>)
    ensures |ks| == |r|
  {
    seq(|r|, i requires 0 <= i < |r| => key(r[i]))
  }

  lemma KeysAppend<T, K>(r: seq<T>, x: T, key: T -> K)
    ensures Keys(r + [x], key) == Keys(r, key) + [key(x)]
  {
    assert forall i :: 0 <= i < |r| ==> (r + [x])[i] == r[i];
  }

  ghost predicate DistinctKeys<T, K>(r: seq<T>, key: T -> K) {
    forall i, j :: 0 <= i < j < |r| ==> key(r[i]) != key(r[j])
  }

  /** Index of the last element of `s` whose key is `k`, or -1 when there is none. */
  ghost function LastKey<T, K>(s: seq<T>, k: K, key: T -> K): (j: int)
    ensures -1 <= j < |s|
    decreases |s|
  {
    if s == [] then -1
    else if key(s[|s| - 1]) == k then |s| - 1
    else LastKey(s[..|s| - 1], k, key)
  }

  lemma {:induction false} FindKeyFound<T, K>(s: seq<T>, k: K, key: T -> K)
    ensures FindKey(s, k, key) < |s| <==> k in Keys(s, key)
  {
    if k in Keys(s, key) {
      var i :| 0 <= i < |s| && Keys(s, key)[i] == k;
      assert key(s[i]) == k;
    }
    var j := FindKey(s, k, key);
    if j < |s| {
      assert Keys(s, key)[j] == k;
    }
  }

  lemma {:induction false} FindKeyExtend<T, K>(s: seq<T>, x: T, k: K, key: T -> K)
    requires FindKey(s, k, key) < |s|
    ensures FindKey(s + [x], k, key) == FindKey(s, k, key)
  {
    if key(s[0]) != k {
      assert (s + [x])[1..] == s[1..] + [x];
      FindKeyExtend(s[1..], x, k, key);
    }
  }

  lemma {:induction false} FindKeyAbsent<T, K>(s: seq<T>, x: T, key: T -> K)
    requires FindKey(s, key(x), key) == |s|
    ensures FindKey(s + [x], key(x), key) == |s|
  {
    if s != [] {
      assert (s + [x])[1..] == s[1..] + [x];
      FindKeyAbsent(s[1..], x, key);
    }
  }

  /** No key occurs twice in the deduplicated sequence. */
  lemma {:induction false} DedupDistinct<T, K>(s: seq<T>, key: T -> K)
    ensures DistinctKeys(DedupByKey(s, key), key)
    decreases |s|
  {
    if s != [] {
      var s', x := s[..|s| - 1], s[|s| - 1];
      DedupDistinct(s', key);
      var r' := DedupByKey(s', key);
      var j := FindKey(r', key(x), key);
      if j < |r'| {
        assert Keys(DedupByKey(s, key), key) == Keys(r', key);
      }
    }
  }

  /** The deduplicated sequence has exactly the keys of the input. */
  lemma {:induction false} DedupKeys<T, K>(s: seq<T>, key: T -> K)
    ensures forall k :: k in Keys(DedupByKey(s, key), key) <==> k in Keys(s, key)
    decreases |s|
  {
    if s != [] {
      var s', x := s[..|s| - 1], s[|s| - 1];
      DedupKeys(s', key);
      var r' := DedupByKey(s', key);
      var j := FindKey(r', key(x), key);
      assert Keys(s, key) == Keys(s', key) + [key(x)];
      if j < |r'| {
        assert Keys(DedupByKey(s, key), key) == Keys(r', key);
        assert key(x) == Keys(r', key)[j];
      } else {
        assert Keys(DedupByKey(s, key), key) == Keys(r', key) + [key(x)];
      }
    }
  }

  /** Each kept element is the last input element with its key. */
  lemma {:induction false} DedupLast<T, K>(s: seq<T>, key: T -> K)
    ensures forall i :: 0 <= i < |DedupByKey(s, key)| ==>
              0 <= LastKey(s, key(DedupByKey(s, key)[i]), key)
              && DedupByKey(s, key)[i] == s[LastKey(s, key(DedupByKey(s, key)[i]), key)]
    decreases |s|
  {
    if s != [] {
      var s', x := s[..|s| - 1], s[|s| - 1];
      DedupLast(s', key);
      DedupDistinct(s', key);
      var r' := DedupByKey(s', key);
      var r := DedupByKey(s, key);
      var j := FindKey(r', key(x), key);
      forall i | 0 <= i < |r| ensures 0 <= LastKey(s, key(r[i]), key) && r[i] == s[LastKey(s, key(r[i]), key)] {
        if (j < |r'| && i == j) || (j == |r'| && i == |r'|) {
          assert r[i] == x;
        } else {
          assert r[i] == r'[i];
          assert key(r'[i]) != key(x);
          assert LastKey(s, key(r[i]), key) == LastKey(s', key(r'[i]), key);
        }
      }
    }
  }

  lemma DedupKeyIff<T, K>(s: seq<T>, key: T -> K, k: K)
    ensures k in Keys(DedupByKey(s, key), key) <==> k in Keys(s, key)
  {
    DedupKeys(s, key);
  }

  /** Every kept key occurs in the input. */
  lemma {:induction false} DedupKeysFound<T, K>(s: seq<T>, key: T -> K, a: nat)
    requires a < |DedupByKey(s, key)|
    ensures FindKey(s, key(DedupByKey(s, key)[a]), key) < |s|
  {
    var r := DedupByKey(s, key);
    assert Keys(r, key)[a] == key(r[a]);
    DedupKeyIff(s, key, key(r[a]));
    FindKeyFound(s, key(r[a]), key);
  }

  /** Kept elements appear in the order in which their keys first occur in the input. */
  lemma {:induction false} DedupOrder<T, K>(s: seq<T>, key: T -> K)
    ensures forall i, j :: 0 <= i < j < |DedupByKey(s, key)| ==>
              FindKey(s, key(DedupByKey(s, key)[i]), key) < FindKey(s, key(DedupByKey(s, key)[j]), key) < |s|
    decreases |s|
  {
    if s != [] {
      var s', x := s[..|s| - 1], s[|s| - 1];
      assert s == s' + [x];
      DedupOrder(s', key);
      var r' := DedupByKey(s', key);
      var r := DedupByKey(s, key);
      ghost var ps := seq(|r|, k requires 0 <= k < |r| => if k < |r'| then FindKey(s', key(r'[k]), key) else |s'|);
      forall k | 0 <= k < |r| ensures FindKey(s, key(r[k]), key) == ps[k] {
        DedupPosition(s', x, key, k);
      }
      forall a, b | 0 <= a < b < |r| ensures ps[a] < ps[b] < |s| {
        if b >= |r'| {
          DedupKeysFound(s', key, a);
        }
      }
    }
  }

  /** Where the key of a kept element first occurs once `x` is appended:
      unchanged for the elements kept before, and at `x` for a new key. */
  lemma DedupPosition<T, K>(s: seq<T>, x: T, key: T -> K, k: nat)
    requires k < |DedupByKey(s + [x], key)|
    ensures var r' := DedupByKey(s, key);
            FindKey(s + [x], key(DedupByKey(s + [x], key)[k]), key) ==
              if k < |r'| then FindKey(s, key(r'[k]), key) else |s|
  {
    var t := s + [x];
    assert t[..|t| - 1] == s;
    var r' := DedupByKey(s, key);
    var r := DedupByKey(t, key);
    var j := FindKey(r', key(x), key);
    if k < |r'| {
      assert key(r[k]) == key(r'[k]);
      DedupKeysFound(s, key, k);
      FindKeyExtend(s, x, key(r'[k]), key);
    } else {
      assert j == |r'| && r[k] == x;
      FindKeyFound(r', key(x), key);
      DedupKeyIff(s, key, key(x));
      FindKeyFound(s, key(x), key);
      FindKeyAbsent(s, x, key);
    }
  }

  /** `m[key(x)] = x` for each `x` of `w` in turn: a plain object or `Map`
      used as a dictionary, where the last write wins. */
  function Assign<T, K(==)>(m: map<K, T>, w: seq<T>, key: T -> K): map<K, T>
    decreases |w|
  {
    if w == [] then m
    else Assign(m, w[..|w| - 1], key)[key(w[|w| - 1]) := w[|w| - 1]]
  }

  lemma {:induction false} LastKeyFound<T, K>(s: seq<T>, k: K, key: T -> K)
    ensures 0 <= LastKey(s, k, key) <==> k in Keys(s, key)
    ensures 0 <= LastKey(s, k, key) ==> key(s[LastKey(s, k, key)]) == k
    decreases |s|
  {
    if s != [] {
      var s' := s[..|s| - 1];
      LastKeyFound(s', k, key);
      assert Keys(s, key) == Keys(s', key) + [key(s[|s| - 1])];
    }
  }

  /** The written keys are the old keys and the keys of the writes. */
  lemma {:induction false} AssignDomain<T, K>(m: map<K, T>, w: seq<T>, key: T -> K, k: K)
    ensures k in Assign(m, w, key) <==> k in m || k in Keys(w, key)
    decreases |w|
  {
    if w != [] {
      var w' := w[..|w| - 1];
      AssignDomain(m, w', key, k);
      assert Keys(w, key) == Keys(w', key) + [key(w[|w| - 1])];
    }
  }

  /** A written key holds the last value written to it. */
  lemma {:induction false} AssignValue<T, K>(m: map<K, T>, w: seq<T>, key: T -> K, k: K)
    requires k in Keys(w, key)
    ensures 0 <= LastKey(w, k, key)
    ensures k in Assign(m, w, key) && Assign(m, w, key)[k] == w[LastKey(w, k, key)]
    decreases |w|
  {
    var w' := w[..|w| - 1];
    LastKeyFound(w, k, key);
    if key(w[|w| - 1]) != k {
      assert Keys(w, key) == Keys(w', key) + [key(w[|w| - 1])];
      AssignValue(m, w', key, k);
    }
  }

  /** A key no write touches keeps its old value. */
  lemma {:induction false} AssignUntouched<T, K>(m: map<K, T>, w: seq<T>, key: T -> K, k: K)
    requires k !in Keys(w, key) && k in m
    ensures k in Assign(m, w, key) && Assign(m, w, key)[k] == m[k]
    decreases |w|
  {
    if w != [] {
      var w' := w[..|w| - 1];
      assert Keys(w, key) == Keys(w', key) + [key(w[|w| - 1])];
      AssignUntouched(m, w', key, k);
    }
  }

  /** Writing `a` then `b` is writing `a + b`. */
  lemma {:induction false} AssignAppend<T, K>(m: map<K, T>, a: seq<T>, b: seq<T>, key: T -> K)
    ensures Assign(m, a + b, key) == Assign(Assign(m, a, key), b, key)
    decreases |b|
  {
    if b == [] {
      assert a + b == a;
    } else {
      var b' := b[..|b| - 1];
      assert (a + b)[..|a + b| - 1] == a + b';
      AssignAppend(m, a, b', key);
    }
  }

  lemma KeysMember<T, K>(r: seq<T>, key: T -> K, k: K)
    ensures k in Keys(r, key) <==> exists i :: 0 <= i < |r| && key(r[i]) == k
  {
    if exists i :: 0 <= i < |r| && key(r[i]) == k {
      var i :| 0 <= i < |r| && key(r[i]) == k;
      assert Keys(r, key)[i] == k;
    }
  }

  lemma DistinctHead<T, K>(s: seq<T>, key: T -> K)
    requires s != [] && DistinctKeys(s, key)
    ensures key(s[0]) !in Keys(s[1..], key) && DistinctKeys(s[1..], key)
  {
    forall q | 0 <= q < |s| - 1 ensures key(s[1..][q]) != key(s[0]) {
      assert s[1..][q] == s[q + 1];
    }
    KeysMember(s[1..], key, key(s[0]));
  }

  lemma {:induction false} InsertKeys<T, K>(x: T, s: seq<T>, le: (T, T) -> bool, key: T -> K, k: K)
    ensures k in Keys(Insert(x, s, le), key) <==> k == key(x) || k in Keys(s, key)
    decreases |s|
  {
    var r := Insert(x, s, le);
    if s == [] || le(x, s[0]) {
      assert Keys(r, key) == [key(x)] + Keys(s, key);
    } else {
      InsertKeys(x, s[1..], le, key, k);
      assert Keys(r, key) == [key(s[0])] + Keys(Insert(x, s[1..], le), key);
      assert Keys(s, key) == [key(s[0])] + Keys(s[1..], key);
    }
  }

  lemma {:induction false} InsertDistinct<T, K>(x: T, s: seq<T>, le: (T, T) -> bool, key: T -> K)
    requires DistinctKeys(s, key) && key(x) !in Keys(s, key)
    ensures DistinctKeys(Insert(x, s, le), key)
    decreases |s|
  {
    var r := Insert(x, s, le);
    if s == [] || le(x, s[0]) {
      forall j | 0 < j < |r| ensures key(r[0]) != key(r[j]) {
        assert Keys(s, key)[j - 1] == key(r[j]);
      }
    } else {
      var t := Insert(x, s[1..], le);
      assert Keys(s, key) == [key(s[0])] + Keys(s[1..], key);
      DistinctHead(s, key);
      InsertDistinct(x, s[1..], le, key);
      InsertKeys(x, s[1..], le, key, key(s[0]));
      forall j | 0 < j < |r| ensures key(r[0]) != key(r[j]) {
        assert r[j] == t[j - 1];
        assert Keys(t, key)[j - 1] == key(r[j]);
      }
    }
  }

  /** Sorting keeps the keys. */
  lemma {:induction false} SortByKeyIff<T, K>(s: seq<T>, le: (T, T) -> bool, key: T -> K, k: K)
    ensures k in Keys(SortBy(s, le), key) <==> k in Keys(s, key)
    decreases |s|
  {
    if s != [] {
      SortByKeyIff(s[1..], le, key, k);
      InsertKeys(s[0], SortBy(s[1..], le), le, key, k);
      assert Keys(s, key) == [key(s[0])] + Keys(s[1..], key);
    }
  }

  /** Sorting keeps the keys distinct. */
  lemma {:induction false} SortByDistinct<T, K>(s: seq<T>, le: (T, T) -> bool, key: T -> K)
    requires DistinctKeys(s, key)
    ensures DistinctKeys(SortBy(s, le), key)
    decreases |s|
  {
    if s != [] {
      DistinctHead(s, key);
      SortByDistinct(s[1..], le, key);
      SortByKeyIff(s[1..], le, key, key(s[0]));
      InsertDistinct(s[0], SortBy(s[1..], le), le, key);
    }
  }
}
