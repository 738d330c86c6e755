/** The search box over the search index (src/components/search.tsx):
    hiragana/katakana folding, the five-way kana-tolerant containment test, and
    the top-ten multi-term filter. React state and rendering are not part of it. */
module Search {
  import opened Text
  import opened Seqs
  import opened SearchIndex

  predicate IsHiragana(c: char) { 0x3041 <= c as int <= 0x3096 }

  predicate IsKatakana(c: char) { 0x30A1 <= c as int <= 0x30F6 }

  /** The replacer of `toKatakana`: a hiragana code unit moves up by 0x60. */
  function KataChar(c: char): char {
    if IsHiragana(c) then ((c as int) + 0x60) as char else c
  }

  /** The replacer of `toHiragana`: a katakana code unit moves down by 0x60. */
  function HiraChar(c: char): char {
    if IsKatakana(c) then ((c as int) - 0x60) as char else c
  }

  /** Applying `f` to every character, as a global `replace` with a
      one-character pattern does. */
  function MapChars(s: string, f: char -> char): (r: string)
    ensures |r| == |s|
    ensures forall i :: 0 <= i < |s| ==> r[i] == f(s[i])
  {
    seq(|s|, i requires 0 <= i < |s| => f(s[i]))
  }

  /** `toKatakana` */
  function ToKatakana(s: string): string { MapChars(s, KataChar) }

  /** `toHiragana` */
  function ToHiragana(s: string): string { MapChars(s, HiraChar) }

  /** Each conversion changes only the characters of its range, uses the
      0x60 offset, and keeps the length. */
  lemma ConversionSpec(s: string)
    ensures |ToKatakana(s)| == |s| && |ToHiragana(s)| == |s|
    ensures forall i :: 0 <= i < |s| ==>
              (IsHiragana(s[i]) ==> ToKatakana(s)[i] as int == s[i] as int + 0x60)
              && (!IsHiragana(s[i]) ==> ToKatakana(s)[i] == s[i])
    ensures forall i :: 0 <= i < |s| ==>
              (IsKatakana(s[i]) ==> ToHiragana(s)[i] as int == s[i] as int - 0x60)
              && (!IsKatakana(s[i]) ==> ToHiragana(s)[i] == s[i])
  {
  }

  /** Either conversion applied twice is applied once; converting to katakana
      first changes nothing for `toHiragana`, and the other way round. */
  lemma ConversionAlgebra(s: string)
    ensures ToKatakana(ToKatakana(s)) == ToKatakana(s)
    ensures ToHiragana(ToHiragana(s)) == ToHiragana(s)
    ensures ToHiragana(ToKatakana(s)) == ToHiragana(s)
    ensures ToKatakana(ToHiragana(s)) == ToKatakana(s)
  {
  }

  /** A character-wise map carries every occurrence along. */
  lemma MapCharsIncludes(a: string, b: string, f: char -> char)
    requires Includes(a, b)
    ensures Includes(MapChars(a, f), MapChars(b, f))
  {
    IncludesIff(a, b);
    var i :| OccursAt(a, b, i);
    forall j | 0 <= j < |b| ensures MapChars(a, f)[i + j] == MapChars(b, f)[j] {
      assert a[i..i + |b|][j] == a[i + j];
    }
    assert MapChars(a, f)[i..i + |b|] == MapChars(b, f);
    assert OccursAt(MapChars(a, f), MapChars(b, f), i);
    IncludesIff(MapChars(a, f), MapChars(b, f));
  }

  /** `matchesKanaVariations(text, query)` */
  predicate MatchesKana(text: string, query: string) {
    var lt := Lower(text);
    var lq := Lower(query);
    Includes(lt, lq)
    || Includes(lt, ToHiragana(lq))
    || Includes(lt, ToKatakana(lq))
    || Includes(ToHiragana(lt), lq)
    || Includes(ToKatakana(lt), lq)
  }

  /** Kana-insensitive containment: both sides folded to katakana. */
  predicate FoldedIncludes(text: string, query: string) {
    Includes(ToKatakana(Lower(text)), ToKatakana(Lower(query)))
  }

  /** Every match is a kana-insensitive match. */
  lemma MatchesKanaSound(text: string, query: string)
    requires MatchesKana(text, query)
    ensures FoldedIncludes(text, query)
  {
    var lt := Lower(text);
    var lq := Lower(query);
    ConversionAlgebra(lt);
    ConversionAlgebra(lq);
    if Includes(lt, lq) {
      MapCharsIncludes(lt, lq, KataChar);
    } else if Includes(lt, ToHiragana(lq)) {
      MapCharsIncludes(lt, ToHiragana(lq), KataChar);
    } else if Includes(lt, ToKatakana(lq)) {
      MapCharsIncludes(lt, ToKatakana(lq), KataChar);
    } else if Includes(ToHiragana(lt), lq) {
      MapCharsIncludes(ToHiragana(lt), lq, KataChar);
    } else {
      MapCharsIncludes(ToKatakana(lt), lq, KataChar);
    }
  }

  ghost predicate NoKatakana(s: string) { forall i :: 0 <= i < |s| ==> !IsKatakana(s[i]) }

  ghost predicate NoHiragana(s: string) { forall i :: 0 <= i < |s| ==> !IsHiragana(s[i]) }

  /** For a query written in one kana script only, a kana-insensitive match is
      a match: the test is then exact. */
  lemma MatchesKanaComplete(text: string, query: string)
    requires NoKatakana(Lower(query)) || NoHiragana(Lower(query))
    requires FoldedIncludes(text, query)
    ensures MatchesKana(text, query)
  {
    var lt := Lower(text);
    var lq := Lower(query);
    ConversionAlgebra(lt);
    ConversionAlgebra(lq);
    if NoKatakana(lq) {
      assert ToHiragana(lq) == lq;
      MapCharsIncludes(ToKatakana(lt), ToKatakana(lq), HiraChar);
      assert Includes(ToHiragana(lt), lq);
    } else {
      assert ToKatakana(lq) == lq;
    }
  }

  /** A query mixing the two scripts can miss a text it matches kana-insensitively:
      text "あイ" and query "アい" pass none of the five tests. */
  lemma MixedScriptMiss()
    ensures FoldedIncludes("\U{3042}\U{30A4}", "\U{30A2}\U{3044}")
    ensures !MatchesKana("\U{3042}\U{30A4}", "\U{30A2}\U{3044}")
  {
    var t := "\U{3042}\U{30A4}";
    var q := "\U{30A2}\U{3044}";
    assert Lower(t) == t && Lower(q) == q;
    assert ToKatakana(t) == "\U{30A2}\U{30A4}" == ToKatakana(q);
    assert ToHiragana(t) == "\U{3042}\U{3044}" == ToHiragana(q);
    assert OccursAt(ToKatakana(t), ToKatakana(q), 0);
    IncludesIff(ToKatakana(t), ToKatakana(q));
    NoOccurrence(t, q);
    NoOccurrence(t, ToHiragana(q));
    NoOccurrence(t, ToKatakana(q));
    NoOccurrence(ToHiragana(t), q);
    NoOccurrence(ToKatakana(t), q);
  }

  /** Two different strings of the same length do not contain each other. */
  lemma NoOccurrence(a: string, b: string)
    requires |a| == |b| && a != b
    ensures !Includes(a, b)
  {
    forall i ensures !OccursAt(a, b, i) {
      if 0 <= i && i + |b| <= |a| {
        assert a[i..i + |b|] == a;
      }
    }
    IncludesIff(a, b);
  }

  /** The text searched for an item: `${item.text} ${item.username}`. */
  function SearchText(it: SearchIndexItem): string {
    it.text + " " + it.username
  }

  /** `queries.every(q => matchesKanaVariations(searchText, q))` */
  predicate MatchesAll(text: string, queries: seq<string>) {
    forall i :: 0 <= i < |queries| ==> MatchesKana(text, queries[i])
  }

  function ItemMatcher(queries: seq<string>): SearchIndexItem -> bool {
    it => MatchesAll(SearchText(it), queries)
  }

  /** `filteredItems` for the input box's value over the loaded index. */
  function FilteredItems(input: string, index: seq<SearchIndexItem>): seq<SearchIndexItem> {
    if Trim(input) == [] then []
    else Take(Filter(index, ItemMatcher(Words(input))), 10)
  }

  /** White space alone finds nothing. */
  lemma FilteredBlank(input: string, index: seq<SearchIndexItem>)
    requires forall i :: 0 <= i < |input| ==> IsSpace(input[i])
    ensures FilteredItems(input, index) == []
  {
    TrimEmptyIff(input);
  }

  /** At most ten results, each an index item matching every term of the input. */
  lemma FilteredSound(input: string, index: seq<SearchIndexItem>, x: SearchIndexItem)
    requires x in FilteredItems(input, index)
    ensures |FilteredItems(input, index)| <= 10
    ensures x in index
    ensures forall q :: q in Words(input) ==> MatchesKana(SearchText(x), q)
  {
    var m := Filter(index, ItemMatcher(Words(input)));
    FilterMembers(index, ItemMatcher(Words(input)));
    assert x in m;
  }

  /** While there are at most ten matches, every matching item is found, in
      index order. */
  lemma FilteredComplete(input: string, index: seq<SearchIndexItem>, x: SearchIndexItem)
    requires Trim(input) != []
    requires |Filter(index, ItemMatcher(Words(input)))| <= 10
    requires x in index && forall q :: q in Words(input) ==> MatchesKana(SearchText(x), q)
    ensures x in FilteredItems(input, index)
    ensures FilteredItems(input, index) == Filter(index, ItemMatcher(Words(input)))
  {
    FilterMembers(index, ItemMatcher(Words(input)));
    assert ItemMatcher(Words(input))(x);
  }
}
