/** Batching: the `for (i = 0; i < xs.length; i += n) xs.slice(i, i + n)`
    pattern that splits records into upload batches and pages. */
module Batches {
  import opened Seqs

  function Flatten<T>(ss: seq<seq<T>>): seq<T> {
    if ss == [] then [] else ss[0] + Flatten(ss[1..])
  }

  /** Consecutive slices of at most `n` elements, as
      `for (i = 0; i < s.length; i += n) s.slice(i, i + n)` produces them. */
  function Chunks<T>(s: seq<T>, n: nat): (r: seq<seq<T>>)
    requires n > 0
    ensures forall i :: 0 <= i < |r| ==> 0 < |r[i]| <= n
    decreases |s|
  {
    if s == [] then []
    else if |s| <= n then [s]
    else [s[..n]] + Chunks(s[n..], n)
  }

  /** Concatenating the chunks gives back the input. */
  lemma {:induction false} ChunksFlatten<T>(s: seq<T>, n: nat)
    requires n > 0
    ensures Flatten(Chunks(s, n)) == s
    decreases |s|
  {
    if |s| > n {
      ChunksFlatten(s[n..], n);
      var r := Chunks(s, n);
      assert r[1..] == Chunks(s[n..], n);
      assert s == s[..n] + s[n..];
    } else if s != [] {
      assert Flatten(Chunks(s, n)) == s + Flatten([]);
    }
  }

  /** ceil(a / n), by repeated subtraction. */
  function CeilDiv(a: nat, n: nat): nat
    requires n > 0
    decreases a
  {
    if a == 0 then 0 else if a <= n then 1 else 1 + CeilDiv(a - n, n)
  }

  /** There are ceil(|s| / n) chunks. */
  lemma {:induction false} ChunksCount<T>(s: seq<T>, n: nat)
    requires n > 0
    ensures |Chunks(s, n)| == CeilDiv(|s|, n)
    decreases |s|
  {
    if |s| > n {
      ChunksCount(s[n..], n);
    }
  }

  /** Chunk `k` is the slice `[k * n, min(k * n + n, |s|))`, and it starts
      inside `s`. */
  lemma {:induction false} ChunkAt<T>(s: seq<T>, n: nat, k: nat)
    requires n > 0 && k < |Chunks(s, n)|
    ensures k * n < |s|
    ensures Chunks(s, n)[k] == s[k * n .. Min(k * n + n, |s|)]
    decreases k
  {
    ChunksUnfold(s, n);
    if k > 0 {
      var t := s[n..];
      ChunkAt(t, n, k - 1);
      var j := (k - 1) * n;
      MulPred(k, n);
      var e := Min(j + n, |t|);
      assert Min(k * n + n, |s|) == e + n;
      SliceShift(s, n, j, e);
    }
  }

  lemma ChunksUnfold<T>(s: seq<T>, n: nat)
    requires n > 0 && s != []
    ensures |s| <= n ==> Chunks(s, n) == [s] && s == s[0..Min(n, |s|)]
    ensures |s| > n ==> Chunks(s, n) == [s[..n]] + Chunks(s[n..], n) && Min(n, |s|) == n
  {
  }

  lemma SliceShift<T>(s: seq<T>, n: nat, j: nat, e: nat)
    requires n <= |s| && j <= e <= |s| - n
    ensures s[n..][j..e] == s[j + n..e + n]
  {
  }

  lemma MulPred(k: nat, n: nat)
    requires k > 0
    ensures k * n == (k - 1) * n + n
  {
  }

  /** `CeilDiv(a, n)` is the least count of `n`-blocks that covers `a`. */
  lemma {:induction false} CeilDivBounds(a: nat, n: nat)
    requires n > 0
    ensures CeilDiv(a, n) * n >= a
    ensures a > 0 ==> (CeilDiv(a, n) - 1) * n < a
    decreases a
  {
    if a > n {
      CeilDivBounds(a - n, n);
      var c := CeilDiv(a - n, n);
      assert CeilDiv(a, n) * n == c * n + n;
      assert (CeilDiv(a, n) - 1) * n == c * n;
      if c > 0 { assert (c - 1) * n == c * n - n; }
    }
  }

  /** The cursor `k * n` of the batch loop is inside `s` exactly while there
      are chunks left. */
  lemma BatchCursor<T>(s: seq<T>, n: nat, k: nat)
    requires n > 0 && k <= |Chunks(s, n)|
    ensures k < |Chunks(s, n)| <==> k * n < |s|
  {
    if k < |Chunks(s, n)| {
      ChunkAt(s, n, k);
    } else {
      ChunksCount(s, n);
      CeilDivBounds(|s|, n);
    }
  }

  /** One iteration of the batch loop: the next chunk is the slice at the
      cursor, and the cursor moves on by `n`. */
  lemma BatchStep<T>(s: seq<T>, n: nat, k: nat)
    requires n > 0 && k < |Chunks(s, n)|
    ensures k * n < |s|
    ensures Chunks(s, n)[..k + 1] == Chunks(s, n)[..k] + [s[k * n .. Min(k * n + n, |s|)]]
    ensures (k + 1) * n == k * n + n
    ensures k + 1 < |Chunks(s, n)| <==> k * n + n < |s|
  {
    ChunkAt(s, n, k);
    var c := Chunks(s, n);
    assert c[..k + 1] == c[..k] + [c[k]];
    MulPred(k + 1, n);
    BatchCursor(s, n, k + 1);
  }

  /** `for (let i = 0; i < s.length; i += n) batches.push(s.slice(i, i + n))` */
  method SliceBatches<T>(s: seq<T>, n: nat) returns (batches: seq<seq<T>>)
    requires n > 0
    ensures batches == Chunks(s, n)
  {
    batches := [];
    var i := 0;
    ghost var k := 0;
    BatchCursor(s, n, 0);
    while i < |s|
      invariant k <= |Chunks(s, n)| && i == k * n
      invariant batches == Chunks(s, n)[..k]
      invariant k < |Chunks(s, n)| <==> i < |s|
      decreases |s| - i
    {
      BatchStep(s, n, k);
      batches := batches + [s[i .. Min(i + n, |s|)]];
      i, k := i + n, k + 1;
    }
    assert Chunks(s, n)[..k] == Chunks(s, n);
  }
}
