/** String operations the scripts use from JavaScript's String and RegExp:
    `trim`, `split(/\s+/)`, `split(c)`, `includes`, `startsWith`, `endsWith`,
    `replace(str, rep)` (first occurrence only), `padStart(2, '0')`,
    `replace(/^0/, '')`, `String(n)`, `toLowerCase()` and the default string
    comparison used by the sorts. */
module Text {
  import Seqs


  /** The characters JavaScript's `\s` and `String.prototype.trim` treat as
      white space: the ECMAScript WhiteSpace and LineTerminator sets. */
  predicate IsSpace(c: char) {
    var n := c as int;
    n == 0x20 || (0x09 <= n <= 0x0D) || n == 0xA0 || n == 0x1680
    || (0x2000 <= n <= 0x200A) || n == 0x2028 || n == 0x2029 || n == 0x202F
    || n == 0x205F || n == 0x3000 || n == 0xFEFF
  }

  predicate IsDigit(c: char) { '0' <= c <= '9' }

  predicate AllDigits(s: string) { forall i :: 0 <= i < |s| ==> IsDigit(s[i]) }

  predicate StartsWith(s: string, prefix: string) {
    |prefix| <= |s| && s[..|prefix|] == prefix
  }

  predicate EndsWith(s: string, suffix: string) {
    |suffix| <= |s| && s[|s| - |suffix|..] == suffix
  }

  /** The length of the longest run of characters satisfying `p` that starts
      at index `j`, as a greedy `p*` in a regular expression matches it. */
  function SpanFrom(s: string, j: nat, p: char -> bool): (n: nat)
    requires j <= |s|
    ensures j + n <= |s|
    ensures forall k :: j <= k < j + n ==> p(s[k])
    ensures j + n == |s| || !p(s[j + n])
    decreases |s| - j
  {
    if j < |s| && p(s[j]) then 1 + SpanFrom(s, j + 1, p) else 0
  }

  /** `pat` occurs in `s` starting at index `i`. */
  predicate OccursAt(s: string, pat: string, i: int) {
    0 <= i && i + |pat| <= |s| && s[i..i + |pat|] == pat
  }

  /** `s.indexOf(pat, from)`: the first occurrence at or after `from`, or -1. */
  function IndexOfFrom(s: string, pat: string, from: nat): (r: int)
    requires from <= |s|
    ensures r == -1 || (from <= r && OccursAt(s, pat, r))
    ensures forall j :: from <= j && (r == -1 || j < r) ==> !OccursAt(s, pat, j)
    decreases |s| - from
  {
    if OccursAt(s, pat, from) then from
    else if from == |s| then -1
    else IndexOfFrom(s, pat, from + 1)
  }

  function IndexOf(s: string, pat: string): int {
    IndexOfFrom(s, pat, 0)
  }

  /** `s.includes(pat)` */
  predicate Includes(s: string, pat: string) {
    IndexOf(s, pat) >= 0
  }

  lemma IncludesIff(s: string, pat: string)
    ensures Includes(s, pat) <==> exists i :: OccursAt(s, pat, i)
  {
    if !Includes(s, pat) {
      forall i ensures !OccursAt(s, pat, i) {
        if 0 <= i <= |s| {
          assert !OccursAt(s, pat, i);
        }
      }
    }
  }

  /** `s.replace(pat, rep)` with a string pattern: only the first occurrence is replaced. */
  function ReplaceFirst(s: string, pat: string, rep: string): string {
    var i := IndexOf(s, pat);
    if i < 0 then s else s[..i] + rep + s[i + |pat|..]
  }

  /** Removing a suffix that occurs nowhere else gives the stem, and a string
      without the pattern is left as it is. */
  lemma ReplaceFirstSuffix(s: string, suffix: string)
    ensures !Includes(s, suffix) ==> ReplaceFirst(s, suffix, "") == s
    ensures EndsWith(s, suffix) && (forall j :: 0 <= j < |s| - |suffix| ==> !OccursAt(s, suffix, j))
            ==> ReplaceFirst(s, suffix, "") == s[..|s| - |suffix|]
  {
    if EndsWith(s, suffix) && (forall j :: 0 <= j < |s| - |suffix| ==> !OccursAt(s, suffix, j)) {
      assert OccursAt(s, suffix, |s| - |suffix|);
      assert IndexOf(s, suffix) == |s| - |suffix|;
    }
  }

  /** `s.replace(/^0/, '')`: one leading zero is dropped. */
  function StripLeadingZero(s: string): (r: string)
    ensures |s| > 0 && s[0] == '0' ==> r == s[1..]
    ensures (|s| == 0 || s[0] != '0') ==> r == s
  {
    if |s| > 0 && s[0] == '0' then s[1..] else s
  }

  /** `s.padStart(2, '0')` */
  function Pad2(s: string): (r: string)
    ensures |r| == if |s| >= 2 then |s| else 2
    ensures EndsWith(r, s)
    ensures forall i :: 0 <= i < |r| - |s| ==> r[i] == '0'
  {
    if |s| >= 2 then s else if |s| == 1 then "0" + s else "00"
  }

  function DigitChar(d: nat): char
    requires d < 10
  {
    ['0', '1', '2', '3', '4', '5', '6', '7', '8', '9'][d]
  }

  /** `String(n)` for a non-negative integer. */
  function NatToString(n: nat): (r: string)
    decreases n
  {
    if n < 10 then [DigitChar(n)] else NatToString(n / 10) + [DigitChar(n % 10)]
  }

  /** `n.toString()` for any integer: a minus sign before the digits of a
      negative one. */
  function IntToString(n: int): string {
    if n >= 0 then NatToString(n) else "-" + NatToString(-n)
  }

  function DigitValue(c: char): nat
    requires IsDigit(c)
  {
    (c as int) - ('0' as int)
  }

  /** The decimal value of a digit string. */
  function ParseNat(s: string): nat
    requires AllDigits(s)
    decreases |s|
  {
    if s == [] then 0 else 10 * ParseNat(s[..|s| - 1]) + DigitValue(s[|s| - 1])
  }

  /** The character of a digit is a digit with that value. */
  lemma DigitCharValue(d: nat)
    requires d < 10
    ensures IsDigit(DigitChar(d)) && DigitValue(DigitChar(d)) == d
    ensures DigitChar(d) == '0' <==> d == 0
  {
  }

  /** Appending a digit shifts the value one decimal place. */
  lemma ParseNatSnoc(s: string, c: char)
    requires AllDigits(s) && IsDigit(c)
    ensures AllDigits(s + [c])
    ensures ParseNat(s + [c]) == 10 * ParseNat(s) + DigitValue(c)
  {
    assert (s + [c])[..|s|] == s;
  }

  /** `String(n)` is a non-empty digit string without a redundant leading zero
      that reads back as `n`. */
  lemma {:induction false} NatToStringSpec(n: nat)
    ensures |NatToString(n)| > 0 && AllDigits(NatToString(n))
    ensures NatToString(n)[0] == '0' <==> n == 0
    ensures n < 10 <==> |NatToString(n)| == 1
    ensures n < 100 <==> |NatToString(n)| <= 2
    ensures ParseNat(NatToString(n)) == n
    decreases n
  {
    if n < 10 {
      DigitCharValue(n);
    } else {
      var q, d := n / 10, n % 10;
      NatToStringSpec(q);
      DigitCharValue(d);
      var t := NatToString(q);
      ParseNatSnoc(t, DigitChar(d));
      assert NatToString(n) == t + [DigitChar(d)];
      assert n == 10 * q + d;
    }
  }

  /** Padding a month or day number to two digits and stripping one leading
      zero again gives the unpadded `String(n)`. */
  lemma PadThenStrip(n: nat)
    requires 1 <= n < 100
    ensures StripLeadingZero(Pad2(NatToString(n))) == NatToString(n)
  {
    NatToStringSpec(n);
  }

  function TrimStart(s: string): (r: string)
    ensures |r| <= |s|
    decreases |s|
  {
    if s != [] && IsSpace(s[0]) then TrimStart(s[1..]) else s
  }

  function TrimEnd(s: string): (r: string)
    ensures |r| <= |s|
    decreases |s|
  {
    if s != [] && IsSpace(s[|s| - 1]) then TrimEnd(s[..|s| - 1]) else s
  }

  /** `s.trim()` */
  function Trim(s: string): string {
    TrimEnd(TrimStart(s))
  }

  lemma {:induction false} TrimStartSpec(s: string)
    ensures |TrimStart(s)| <= |s| && TrimStart(s) == s[|s| - |TrimStart(s)|..]
    ensures TrimStart(s) == [] || !IsSpace(TrimStart(s)[0])
    ensures forall i :: 0 <= i < |s| - |TrimStart(s)| ==> IsSpace(s[i])
    decreases |s|
  {
    if s != [] && IsSpace(s[0]) {
      TrimStartSpec(s[1..]);
      forall i | 0 < i < |s| - |TrimStart(s)| ensures IsSpace(s[i]) {
        assert s[i] == s[1..][i - 1];
      }
    }
  }

  lemma {:induction false} TrimEndSpec(s: string)
    ensures |TrimEnd(s)| <= |s| && TrimEnd(s) == s[..|TrimEnd(s)|]
    ensures TrimEnd(s) == [] || !IsSpace(TrimEnd(s)[|TrimEnd(s)| - 1])
    ensures forall i :: |TrimEnd(s)| <= i < |s| ==> IsSpace(s[i])
    decreases |s|
  {
    if s != [] && IsSpace(s[|s| - 1]) {
      TrimEndSpec(s[..|s| - 1]);
    }
  }

  /** `trim` removes exactly the white space at both ends: the result is a
      slice of the input, it neither starts nor ends with white space, and
      everything cut off is white space. */
  lemma TrimSpec(s: string) returns (lo: nat, hi: nat)
    ensures lo <= hi <= |s| && Trim(s) == s[lo..hi]
    ensures Trim(s) == [] || (!IsSpace(Trim(s)[0]) && !IsSpace(Trim(s)[|Trim(s)| - 1]))
    ensures forall i :: 0 <= i < lo || hi <= i < |s| ==> IsSpace(s[i])
  {
    var t := TrimStart(s);
    TrimStartSpec(s);
    TrimEndSpec(t);
    lo := |s| - |t|;
    hi := lo + |TrimEnd(t)|;
    assert Trim(s) == t[..|TrimEnd(t)|];
    forall i | hi <= i < |s| ensures IsSpace(s[i]) {
      assert s[i] == t[i - lo];
    }
    if Trim(s) != [] {
      assert Trim(s)[0] == t[0];
    }
  }

  /** A string trims to "" exactly when it is all white space. */
  lemma TrimEmptyIff(s: string)
    ensures Trim(s) == [] <==> forall i :: 0 <= i < |s| ==> IsSpace(s[i])
  {
    var lo, hi := TrimSpec(s);
  }

  /** The longest prefix without white space. */
  function Word(s: string): (r: string)
    ensures |r| <= |s| && r == s[..|r|]
    decreases |s|
  {
    if s == [] || IsSpace(s[0]) then [] else [s[0]] + Word(s[1..])
  }

  /** `s.split(/\s+/).filter(q => q)`: the maximal runs of non-space characters. */
  function Words(s: string): seq<string>
    decreases |s|
  {
    var t := TrimStart(s);
    if t == [] then []
    else
      var w := Word(t);
      assert |w| > 0 by { TrimStartSpec(s); }
      [w] + Words(t[|w|..])
  }

  ghost predicate NoSpace(w: string) {
    forall i :: 0 <= i < |w| ==> !IsSpace(w[i])
  }

  lemma {:induction false} WordNoSpace(s: string)
    ensures NoSpace(Word(s))
    decreases |s|
  {
    if s != [] && !IsSpace(s[0]) {
      WordNoSpace(s[1..]);
      assert Word(s) == [s[0]] + Word(s[1..]);
    }
  }

  /** Every query term is a non-empty run without white space, and there are
      none exactly when the input is all white space. */
  lemma {:induction false} WordsSpec(s: string)
    ensures forall k :: 0 <= k < |Words(s)| ==> |Words(s)[k]| > 0 && NoSpace(Words(s)[k])
    ensures Words(s) == [] <==> Trim(s) == []
    decreases |s|
  {
    var t := TrimStart(s);
    TrimStartSpec(s);
    TrimEndSpec(t);
    if t != [] {
      var w := Word(t);
      WordNoSpace(t);
      WordsSpec(t[|w|..]);
      assert Words(s) == [w] + Words(t[|w|..]);
      assert TrimEnd(t) != [];
    }
  }

  /** `s.split(sep)` with a one-character separator. */
  function Split(s: string, sep: char): (r: seq<string>)
    ensures |r| >= 1
    decreases |s|
  {
    var i := IndexOf(s, [sep]);
    if i < 0 then [s] else [s[..i]] + Split(s[i + 1..], sep)
  }

  function Join(parts: seq<string>, sep: char): string
    requires |parts| >= 1
  {
    if |parts| == 1 then parts[0] else parts[0] + [sep] + Join(parts[1..], sep)
  }

  /** The fields contain no separator, and joining them back gives the input. */
  lemma {:induction false} SplitJoin(s: string, sep: char)
    ensures Join(Split(s, sep), sep) == s
    ensures forall k :: 0 <= k < |Split(s, sep)| ==> sep !in Split(s, sep)[k]
    decreases |s|
  {
    var i := IndexOf(s, [sep]);
    if i < 0 {
      forall j | 0 <= j < |s| ensures s[j] != sep {
        assert !OccursAt(s, [sep], j);
        assert s[j..j + 1] == [s[j]];
      }
    } else {
      assert s[i..i + 1] == [sep];
      SplitJoin(s[i + 1..], sep);
      var r := Split(s, sep);
      assert r[1..] == Split(s[i + 1..], sep);
      assert s == s[..i] + [sep] + s[i + 1..];
      forall j | 0 <= j < i ensures s[j] != sep {
        assert !OccursAt(s, [sep], j);
        assert s[j..j + 1] == [s[j]];
      }
      forall k | 0 <= k < |r| ensures sep !in r[k] {
        if k > 0 {
          assert r[k] == Split(s[i + 1..], sep)[k - 1];
        }
      }
    }
  }

  /** The last field of a split holds no separator; it is the whole text
      when there is no separator, and otherwise what follows the last one. */
  ghost predicate LastFieldOk(s: string, sep: char) {
    var parts := Split(s, sep);
    var last := parts[|parts| - 1];
    && sep !in last
    && (sep !in s ==> last == s)
    && (sep in s ==> EndsWith(s, [sep] + last))
  }

  lemma {:induction false} SplitLast(s: string, sep: char)
    ensures LastFieldOk(s, sep)
    decreases |s|
  {
    var i := IndexOf(s, [sep]);
    if i < 0 {
      SplitLastNone(s, sep);
    } else {
      SplitLast(s[i + 1..], sep);
      SplitLastAt(s, sep, i);
    }
  }

  lemma SplitLastNone(s: string, sep: char)
    requires IndexOf(s, [sep]) < 0
    ensures LastFieldOk(s, sep)
  {
    NoSeparator(s, sep);
    assert Split(s, sep) == [s];
  }

  lemma SplitLastAt(s: string, sep: char, i: int)
    requires i == IndexOf(s, [sep]) && i >= 0
    requires LastFieldOk(s[i + 1..], sep)
    ensures LastFieldOk(s, sep)
  {
    var rest := s[i + 1..];
    SeparatorAt(s, sep, i);
    var tail := Split(rest, sep);
    var parts := Split(s, sep);
    var last := tail[|tail| - 1];
    assert parts == [s[..i]] + tail;
    assert parts[|parts| - 1] == last;
    SuffixAfter(s, i, rest, [sep] + last, sep in rest);
  }

  lemma NoSeparator(s: string, sep: char)
    requires IndexOf(s, [sep]) < 0
    ensures sep !in s
  {
    forall j | 0 <= j < |s| ensures s[j] != sep {
      assert !OccursAt(s, [sep], j);
      assert s[j..j + 1] == [s[j]];
    }
  }

  lemma SeparatorAt(s: string, sep: char, i: int)
    requires i == IndexOf(s, [sep]) && i >= 0
    ensures i < |s| && s[i] == sep && sep in s
  {
    assert s[i..i + 1] == [sep];
  }

  /** A suffix of what follows index `i` is a suffix of the whole text; so is
      the separator at `i` followed by all of it. */
  lemma SuffixAfter(s: string, i: nat, rest: string, t: string, inRest: bool)
    requires i < |s| && rest == s[i + 1..]
    requires inRest ==> EndsWith(rest, t)
    requires !inRest ==> t == [s[i]] + rest
    ensures EndsWith(s, t)
  {
    if inRest {
      assert s[|s| - |t|..] == rest[|rest| - |t|..];
    } else {
      assert s[i..] == [s[i]] + rest;
    }
  }

  /** The first field of a split is the text before the first separator,
      or all of it when there is none. */
  lemma SplitHead(s: string, sep: char)
    ensures var h := Split(s, sep)[0];
            && |h| <= |s| && h == s[..|h|]
            && sep !in h
            && (|h| == |s| || s[|h|] == sep)
  {
    SplitJoin(s, sep);
    var i := IndexOf(s, [sep]);
    if i >= 0 {
      assert s[i..i + 1] == [sep];
    }
  }

  /** ASCII lower-casing of one character. */
  function LowerChar(c: char): char {
    if 'A' <= c <= 'Z' then ((c as int) + 32) as char else c
  }

  /** `s.toLowerCase()`, restricted to the ASCII letters. */
  function Lower(s: string): (r: string)
    ensures |r| == |s|
    ensures forall i :: 0 <= i < |s| ==> r[i] == LowerChar(s[i])
  {
    seq(|s|, i requires 0 <= i < |s| => LowerChar(s[i]))
  }

  lemma LowerIdempotent(s: string)
    ensures Lower(Lower(s)) == Lower(s)
  {
  }

  /** The default string order of JavaScript's comparisons (`a < b` on
      strings): code-unit lexicographic order. */
  predicate StrLe(a: string, b: string)
    decreases |a|
  {
    a == [] || (b != [] && (a[0] < b[0] || (a[0] == b[0] && StrLe(a[1..], b[1..]))))
  }

  lemma {:induction false} StrLeTotal(a: string, b: string)
    ensures StrLe(a, b) || StrLe(b, a)
    decreases |a|
  {
    if a != [] && b != [] && a[0] == b[0] {
      StrLeTotal(a[1..], b[1..]);
    }
  }

  lemma {:induction false} StrLeTrans(a: string, b: string, c: string)
    requires StrLe(a, b) && StrLe(b, c)
    ensures StrLe(a, c)
    decreases |a|
  {
    if a != [] && a[0] == b[0] && b[0] == c[0] {
      StrLeTrans(a[1..], b[1..], c[1..]);
    }
  }

  lemma {:induction false} StrLeAntisym(a: string, b: string)
    requires StrLe(a, b) && StrLe(b, a)
    ensures a == b
    decreases |a|
  {
    if a != [] {
      StrLeAntisym(a[1..], b[1..]);
      assert a == [a[0]] + a[1..] && b == [b[0]] + b[1..];
    }
  }

  /** The string order is a total order. */
  lemma StrLeTotalOrder()
    ensures forall a, b :: StrLe(a, b) || StrLe(b, a)
    ensures forall a, b, c :: StrLe(a, b) && StrLe(b, c) ==> StrLe(a, c)
    ensures forall a, b :: StrLe(a, b) && StrLe(b, a) ==> a == b
  {
    forall a, b ensures StrLe(a, b) || StrLe(b, a) { StrLeTotal(a, b); }
    forall a, b, c | StrLe(a, b) && StrLe(b, c) ensures StrLe(a, c) { StrLeTrans(a, b, c); }
    forall a, b | StrLe(a, b) && StrLe(b, a) ensures a == b { StrLeAntisym(a, b); }
  }

  /** A comparator that orders by a string key, ascending or descending, is a
      total preorder, which is what a stable sort by it needs. */
  lemma KeyOrderTotal<T(!new)>(le: (T, T) -> bool, key: T -> string, descending: bool)
    requires forall a, b :: le(a, b) == if descending then StrLe(key(b), key(a)) else StrLe(key(a), key(b))
    ensures Seqs.TotalPreorder(le)
  {
    StrLeTotalOrder();
  }
}
