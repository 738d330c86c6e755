/** The import of a Twitter data export (src/scripts/process-archive-likes.ts):
    every `like-twitter-*.js` file is stripped of its JavaScript wrapper and
    parsed; likes whose tweet is already in the tweet index, and repeats within
    the export, are skipped; the rest are shaped into archive records and
    written sorted by tweet ID, largest first, together with the list of their
    IDs in the same order. */
module ArchiveLikes {
  import opened LikeTypes
  import opened Text
  import opened Seqs
  import opened FileTree
  import opened Dedup

  /** One element of an export file, `{ like: { tweetId, fullText?, expandedUrl } }`. */
  datatype ArchiveEntry = ArchiveEntry(tweetId: string, fullText: Option<string>, expandedUrl: string)

  /** `ProcessedArchiveLike` */
  datatype ArchiveLike = ArchiveLike(
    id: string, tweetId: string, fullText: Option<string>, expandedUrl: string,
    isArchive: bool, processedAt: string)

  const Header := "window.YTD.like.part"

  /** Every character of `s[lo..hi]` satisfies `p`. */
  ghost predicate AllIn(s: string, lo: int, hi: int, p: char -> bool) {
    0 <= lo <= hi <= |s| && forall k :: lo <= k < hi ==> p(s[k])
  }

  /** `m` is a whole match of `h` followed by `digit+ space* eq space*`. */
  ghost predicate IsLead(m: string, h: string, digit: char -> bool, space: char -> bool, eq: char) {
    exists i, j :: LeadAt(m, h, digit, space, eq, i, j)
  }

  /** The match splits as `h`, digits up to `i`, spaces up to `j`, `eq` at `j`, spaces. */
  ghost predicate LeadAt(m: string, h: string, digit: char -> bool, space: char -> bool, eq: char, i: int, j: int) {
    && StartsWith(m, h)
    && |h| < i <= j < |m| && AllIn(m, |h|, i, digit)
    && AllIn(m, i, j, space) && m[j] == eq && AllIn(m, j + 1, |m|, space)
  }

  /** The length of a leading match of `h digit+ space* eq space*`, with
      greedy runs as a regular expression takes them, or 0 when there is none. */
  function LeadEnd(c: string, h: string, digit: char -> bool, space: char -> bool, eq: char): (k: nat)
    ensures k <= |c|
  {
    if !StartsWith(c, h) then 0
    else
      var a := |h| + SpanFrom(c, |h|, digit);
      var e := a + SpanFrom(c, a, space);
      if a > |h| && e < |c| && c[e] == eq then e + 1 + SpanFrom(c, e + 1, space) else 0
  }

  /** Removing that leading match. */
  function StripLead(c: string, h: string, digit: char -> bool, space: char -> bool, eq: char): string {
    c[LeadEnd(c, h, digit, space, eq)..]
  }

  /** A run of `p` that ends where `p` stops holding is the one `SpanFrom` finds. */
  lemma {:induction false} SpanExact(s: string, j: nat, i: nat, p: char -> bool)
    requires j <= i <= |s| && AllIn(s, j, i, p) && (i == |s| || !p(s[i]))
    ensures j + SpanFrom(s, j, p) == i
    decreases i - j
  {
    if j < i {
      SpanExact(s, j + 1, i, p);
    }
  }

  /** What is stripped, `c[..k]`, is a whole match, the trailing run
      included, and the rest of the content follows it. */
  lemma StripLeadFound(c: string, h: string, digit: char -> bool, space: char -> bool, eq: char)
    returns (k: nat)
    ensures k <= |c| && StripLead(c, h, digit, space, eq) == c[k..]
    ensures k > 0 ==> IsLead(c[..k], h, digit, space, eq) && (k == |c| || !space(c[k]))
  {
    k := LeadEnd(c, h, digit, space, eq);
    if k > 0 {
      var a := |h| + SpanFrom(c, |h|, digit);
      var e := a + SpanFrom(c, a, space);
      StripLeadCut(c, h, digit, space, eq, a, e, k);
    }
  }

  lemma StripLeadCut(c: string, h: string, digit: char -> bool, space: char -> bool, eq: char, a: nat, e: nat, k: nat)
    requires StartsWith(c, h) && |h| < a <= e < k <= |c| && c[e] == eq
    requires forall q :: |h| <= q < a ==> digit(c[q])
    requires forall q :: a <= q < e ==> space(c[q])
    requires forall q :: e + 1 <= q < k ==> space(c[q])
    ensures IsLead(c[..k], h, digit, space, eq)
  {
    var m := c[..k];
    PrefixAllIn(c, k, |h|, a, digit);
    PrefixAllIn(c, k, a, e, space);
    PrefixAllIn(c, k, e + 1, k, space);
    assert m[..|h|] == c[..|h|];
    assert LeadAt(m, h, digit, space, eq, a, e);
  }

  lemma PrefixAllIn(c: string, k: nat, lo: nat, hi: nat, p: char -> bool)
    requires lo <= hi <= k <= |c|
    requires forall q :: lo <= q < hi ==> p(c[q])
    ensures AllIn(c[..k], lo, hi, p)
  {
  }

  /** Content that starts with a match loses it. */
  lemma StripLeadMissed(c: string, k: nat, h: string, digit: char -> bool, space: char -> bool, eq: char)
    requires !digit(eq) && !space(eq) && forall x :: space(x) ==> !digit(x)
    requires k <= |c| && IsLead(c[..k], h, digit, space, eq)
    ensures StripLead(c, h, digit, space, eq) != c
  {
    var m := c[..k];
    var i, j :| LeadAt(m, h, digit, space, eq, i, j);
    LeadInPrefix(c, k, h, digit, space, eq, i, j);
    LeadEndPast(c, h, digit, space, eq, i, j);
  }

  /** The digits, spaces and `eq` of a match in a prefix are in the content. */
  lemma LeadInPrefix(c: string, k: nat, h: string, digit: char -> bool, space: char -> bool, eq: char, i: int, j: int)
    requires k <= |c| && LeadAt(c[..k], h, digit, space, eq, i, j)
    ensures StartsWith(c, h) && |h| < i <= j < |c|
    ensures AllIn(c, |h|, i, digit) && AllIn(c, i, j, space) && c[j] == eq
  {
    var m := c[..k];
    assert c[..|h|] == m[..|h|];
    assert forall q :: 0 <= q < k ==> c[q] == m[q];
  }

  /** With the digits up to `i`, spaces up to `j` and `eq` at `j`, the match
      the greedy runs find ends after `j`. */
  lemma LeadEndPast(c: string, h: string, digit: char -> bool, space: char -> bool, eq: char, i: int, j: int)
    requires !digit(eq) && !space(eq) && forall x :: space(x) ==> !digit(x)
    requires StartsWith(c, h) && |h| < i <= j < |c|
    requires AllIn(c, |h|, i, digit) && AllIn(c, i, j, space) && c[j] == eq
    ensures StripLead(c, h, digit, space, eq) != c
  {
    assert !digit(c[i]) by {
      if i < j {
        assert space(c[i]);
      }
    }
    SpanExact(c, |h|, i, digit);
    SpanExact(c, i, j, space);
    assert LeadEnd(c, h, digit, space, eq) > j;
  }

  /** The first `replace` of `loadArchiveFile`: the regular expression
      ^window\.YTD\.like\.part\d+\s*=\s* replaced by ''. */
  function StripHeader(c: string): string {
    StripLead(c, Header, IsDigit, IsSpace, '=')
  }

  /** No white-space character is a digit. */
  lemma SpaceNotDigit()
    ensures forall x :: IsSpace(x) ==> !IsDigit(x)
  {
  }

  /** The header is removed exactly when the content starts with a match of
      the pattern, it is removed whole (white space after `=` included), and
      the rest is kept. */
  lemma StripHeaderSpec(c: string)
    ensures |StripHeader(c)| <= |c| && StripHeader(c) == c[|c| - |StripHeader(c)|..]
    ensures StripHeader(c) != c ==>
              && IsLead(c[..|c| - |StripHeader(c)|], Header, IsDigit, IsSpace, '=')
              && (StripHeader(c) == [] || !IsSpace(StripHeader(c)[0]))
    ensures StripHeader(c) != c <==> exists k :: 0 <= k <= |c| && IsLead(c[..k], Header, IsDigit, IsSpace, '=')
  {
    var k := StripLeadFound(c, Header, IsDigit, IsSpace, '=');
    assert k == |c| - |StripHeader(c)|;
    if exists k :: 0 <= k <= |c| && IsLead(c[..k], Header, IsDigit, IsSpace, '=') {
      var k :| 0 <= k <= |c| && IsLead(c[..k], Header, IsDigit, IsSpace, '=');
      SpaceNotDigit();
      StripLeadMissed(c, k, Header, IsDigit, IsSpace, '=');
    }
  }

  /** `;?\s*$` matches at index `i` of `s`. */
  ghost predicate TailAt(s: string, i: int) {
    && 0 <= i <= |s|
    && (AllIn(s, i, |s|, IsSpace) || (i < |s| && s[i] == ';' && AllIn(s, i + 1, |s|, IsSpace)))
  }

  /** `.replace(/;?\s*$/, '')` */
  function StripTail(s: string): string {
    var t := |TrimEnd(s)|;
    if t > 0 && s[t - 1] == ';' then s[..t - 1] else s[..t]
  }

  /** The tail removed is the leftmost match of `;?\s*$`. */
  lemma StripTailSpec(s: string)
    ensures |StripTail(s)| <= |s| && StripTail(s) == s[..|StripTail(s)|]
    ensures TailAt(s, |StripTail(s)|)
    ensures forall j :: 0 <= j < |StripTail(s)| ==> !TailAt(s, j)
  {
    TrimEndSpec(s);
    var t := |TrimEnd(s)|;
    var r := StripTail(s);
    forall j | 0 <= j < |r| ensures !TailAt(s, j) {
      assert !IsSpace(s[t - 1]);
      if s[j] == ';' {
        assert j < t - 1;
      }
    }
  }

  /** `loadArchiveFile` before `JSON.parse`. */
  function Strip(c: string): string {
    StripTail(StripHeader(c))
  }

  /** `f.startsWith('like-twitter-') && f.endsWith('.js')` */
  predicate IsArchiveFile(name: string) {
    StartsWith(name, "like-twitter-") && EndsWith(name, ".js")
  }

  /** `loadArchiveFile` for the file `name`: its content read with `read`, a
      failed parse (which ends the run) as `None`. */
  function Load(read: string -> string, parse: string -> Option<seq<ArchiveEntry>>): string -> Option<seq<ArchiveEntry>> {
    name => parse(Strip(read(name)))
  }

  /** The record built for an entry, with `processedAt` from the clock. */
  function Shape(e: ArchiveEntry, at: string): ArchiveLike {
    ArchiveLike("archive-" + e.tweetId, e.tweetId, e.fullText, e.expandedUrl, true, at)
  }

  /** `allLikes`, `seenTweetIds` and `existingDuplicateCount`. */
  datatype Gathered = Gathered(likes: seq<ArchiveLike>, seen: set<string>, existingDuplicates: nat)

  /** One iteration of the inner loop; the `k`-th record kept gets the time stamp `stamp(k)`. */
  function Absorb(g: Gathered, e: ArchiveEntry, index: set<string>, stamp: nat -> string): Gathered {
    if e.tweetId in index then g.(existingDuplicates := g.existingDuplicates + 1)
    else if e.tweetId in g.seen then g
    else Gathered(g.likes + [Shape(e, stamp(|g.likes|))], g.seen + {e.tweetId}, g.existingDuplicates)
  }

  /** The state after the loop has seen the entries `es`, in order. */
  function GatherAll(es: seq<ArchiveEntry>, index: set<string>, stamp: nat -> string): Gathered
    decreases |es|
  {
    if es == [] then Gathered([], {}, 0)
    else Absorb(GatherAll(es[..|es| - 1], index, stamp), es[|es| - 1], index, stamp)
  }

  /** `b.tweetId.localeCompare(a.tweetId)`, with code-unit order for the locale order. */
  predicate TweetIdDesc(a: ArchiveLike, b: ArchiveLike) {
    StrLe(b.tweetId, a.tweetId)
  }

  function TweetIdOf(l: ArchiveLike): string { l.tweetId }

  /** The two files written: `archive-likes.json`, `archive-tweet-ids.json`,
      and the count of likes skipped because the index had them. */
  datatype ArchiveOutput = ArchiveOutput(likes: seq<ArchiveLike>, tweetIds: seq<string>, existingDuplicates: nat)

  function Output(g: Gathered): ArchiveOutput {
    var sorted := SortBy(g.likes, TweetIdDesc);
    ArchiveOutput(sorted, seq(|sorted|, k requires 0 <= k < |sorted| => sorted[k].tweetId), g.existingDuplicates)
  }

  /** An unreadable tweet index counts as empty. */
  function IndexOrEmpty(indexKeys: Option<set<string>>): set<string> {
    if indexKeys.Some? then indexKeys.value else {}
  }

  /** The whole run over a directory holding the files `names`, each read with
      `load`; `None` when an export file fails to parse. */
  function Run(indexKeys: Option<set<string>>, names: seq<string>,
               load: string -> Option<seq<ArchiveEntry>>, stamp: nat -> string): Option<ArchiveOutput>
  {
    match CollectAll(Filter(names, IsArchiveFile), load)
    case None => None
    case Some(es) => Some(Output(GatherAll(es, IndexOrEmpty(indexKeys), stamp)))
  }

  /** `processArchiveLikes`, over the files `names` of the project root; `read`
      gives a file's content, `parse` is `JSON.parse` on it and `stamp(k)` is
      the clock reading for the `k`-th record kept. */
  method ProcessArchiveLikes(indexKeys: Option<set<string>>, names: seq<string>, read: string -> string,
                             parse: string -> Option<seq<ArchiveEntry>>, stamp: nat -> string)
    returns (r: Option<ArchiveOutput>)
    ensures r == Run(indexKeys, names, Load(read, parse), stamp)
  {
    var g := GatherFiles(Filter(names, IsArchiveFile), Load(read, parse), IndexOrEmpty(indexKeys), stamp);
    r := if g.Some? then Some(Output(g.value)) else None;
  }

  /** The loop over the export files, each loaded with `load`. */
  method GatherFiles(files: seq<string>, load: string -> Option<seq<ArchiveEntry>>,
                     index: set<string>, stamp: nat -> string)
    returns (r: Option<Gathered>)
    ensures CollectAll(files, load).None? ==> r.None?
    ensures CollectAll(files, load).Some? ==> r == Some(GatherAll(CollectAll(files, load).value, index, stamp))
  {
    var g := Gathered([], {}, 0);
    ghost var es: seq<ArchiveEntry> := [];
    var i := 0;
    while i < |files|
      invariant 0 <= i <= |files|
      invariant CollectAll(files[..i], load) == Some(es)
      invariant g == GatherAll(es, index, stamp)
    {
      var likes := load(files[i]);
      if likes.None? {
        NoneStep(files, i, load, es);
        return None;
      }
      g := AbsorbFile(g, es, likes.value, index, stamp);
      CollectAllStep(files, i, load, es, likes.value);
      es := es + likes.value;
      i := i + 1;
    }
    assert files[..i] == files;
    r := Some(g);
  }

  lemma NoneStep(files: seq<string>, i: nat, load: string -> Option<seq<ArchiveEntry>>, es: seq<ArchiveEntry>)
    requires i < |files| && CollectAll(files[..i], load) == Some(es) && load(files[i]).None?
    ensures CollectAll(files, load).None?
  {
    assert files[..i + 1][..i] == files[..i];
    CollectAllNone(files, i + 1, load);
  }

  lemma GatherNext(before: seq<ArchiveEntry>, es: seq<ArchiveEntry>, k: nat, index: set<string>, stamp: nat -> string)
    requires k < |es|
    ensures GatherAll(before + es[..k + 1], index, stamp) == Absorb(GatherAll(before + es[..k], index, stamp), es[k], index, stamp)
  {
    var t := before + es[..k + 1];
    assert t[..|t| - 1] == before + es[..k];
    assert t[|t| - 1] == es[k];
  }

  /** The inner loop over the likes of one file. */
  method AbsorbFile(g0: Gathered, ghost before: seq<ArchiveEntry>, es: seq<ArchiveEntry>,
                    index: set<string>, stamp: nat -> string)
    returns (g: Gathered)
    requires g0 == GatherAll(before, index, stamp)
    ensures g == GatherAll(before + es, index, stamp)
  {
    g := g0;
    var k := 0;
    assert before + es[..0] == before;
    while k < |es|
      invariant 0 <= k <= |es|
      invariant g == GatherAll(before + es[..k], index, stamp)
    {
      var e := es[k];
      GatherNext(before, es, k, index, stamp);
      if e.tweetId in index {
        g := g.(existingDuplicates := g.existingDuplicates + 1);
      } else if e.tweetId !in g.seen {
        g := Gathered(g.likes + [Shape(e, stamp(|g.likes|))], g.seen + {e.tweetId}, g.existingDuplicates);
      }
      k := k + 1;
    }
    assert es[..k] == es;
  }

  /** Every record is shaped from its entry: `id` is `archive-` and the tweet
      ID, `isArchive` holds, and its ID is not in the tweet index; the kept and
      the skipped never outnumber the entries. */
  lemma {:induction false} GatherShape(es: seq<ArchiveEntry>, index: set<string>, stamp: nat -> string)
    ensures var g := GatherAll(es, index, stamp);
            && |g.likes| + g.existingDuplicates <= |es|
            && forall x :: x in g.likes ==>
                 x.id == "archive-" + x.tweetId && x.isArchive && x.tweetId !in index
    decreases |es|
  {
    if es != [] {
      GatherShape(es[..|es| - 1], index, stamp);
    }
  }

  /** The IDs recorded as seen are those of the records. */
  lemma {:induction false} GatherSeenLikes(es: seq<ArchiveEntry>, index: set<string>, stamp: nat -> string, t: string)
    ensures var g := GatherAll(es, index, stamp);
            t in g.seen <==> exists k :: 0 <= k < |g.likes| && g.likes[k].tweetId == t
    decreases |es|
  {
    if es != [] {
      var p := es[..|es| - 1];
      GatherSeenLikes(p, index, stamp, t);
      var g0 := GatherAll(p, index, stamp);
      var g := GatherAll(es, index, stamp);
      var e := es[|es| - 1];
      if e.tweetId !in index && e.tweetId !in g0.seen {
        assert g.likes == g0.likes + [Shape(e, stamp(|g0.likes|))];
        assert g.seen == g0.seen + {e.tweetId};
        assert g.likes[|g0.likes|].tweetId == e.tweetId;
        if exists k :: 0 <= k < |g0.likes| && g0.likes[k].tweetId == t {
          var k :| 0 <= k < |g0.likes| && g0.likes[k].tweetId == t;
          assert g.likes[k] == g0.likes[k];
        }
        if exists k :: 0 <= k < |g.likes| && g.likes[k].tweetId == t {
          var k :| 0 <= k < |g.likes| && g.likes[k].tweetId == t;
          if k < |g0.likes| { assert g0.likes[k] == g.likes[k]; }
        }
      } else {
        assert g.likes == g0.likes && g.seen == g0.seen;
      }
    }
  }

  /** The IDs seen are exactly those of entries that the index does not hold. */
  lemma {:induction false} GatherSeen(es: seq<ArchiveEntry>, index: set<string>, stamp: nat -> string, t: string)
    ensures t in GatherAll(es, index, stamp).seen <==> t !in index && exists i :: 0 <= i < |es| && es[i].tweetId == t
    decreases |es|
  {
    if es != [] {
      var p := es[..|es| - 1];
      GatherSeen(p, index, stamp, t);
      var g0 := GatherAll(p, index, stamp);
      var e := es[|es| - 1];
      assert GatherAll(es, index, stamp).seen == if e.tweetId !in index && e.tweetId !in g0.seen then g0.seen + {e.tweetId} else g0.seen;
      if exists i :: 0 <= i < |es| && es[i].tweetId == t {
        var i :| 0 <= i < |es| && es[i].tweetId == t;
        if i < |p| { assert p[i] == es[i]; }
      }
      if exists i :: 0 <= i < |p| && p[i].tweetId == t {
        var i :| 0 <= i < |p| && p[i].tweetId == t;
        assert es[i] == p[i];
      }
    }
  }

  /** No two records share a tweet ID. */
  lemma {:induction false} GatherDistinct(es: seq<ArchiveEntry>, index: set<string>, stamp: nat -> string)
    ensures DistinctKeys(GatherAll(es, index, stamp).likes, TweetIdOf)
    decreases |es|
  {
    if es != [] {
      var p := es[..|es| - 1];
      GatherDistinct(p, index, stamp);
      var g0 := GatherAll(p, index, stamp);
      var e := es[|es| - 1];
      if e.tweetId !in index && e.tweetId !in g0.seen {
        var ls := GatherAll(es, index, stamp).likes;
        forall a | 0 <= a < |g0.likes| ensures ls[a].tweetId != ls[|g0.likes|].tweetId {
          assert ls[a] == g0.likes[a];
          GatherSeenLikes(p, index, stamp, ls[a].tweetId);
        }
      }
    }
  }

  /** `i` is the first entry with its tweet ID. */
  ghost predicate FirstWithId(es: seq<ArchiveEntry>, i: int) {
    0 <= i < |es| && forall j :: 0 <= j < i ==> es[j].tweetId != es[i].tweetId
  }

  /** The first entry for an ID wins: every record carries the text and URL of
      the first entry with its ID. */
  lemma {:induction false} GatherFirst(es: seq<ArchiveEntry>, index: set<string>, stamp: nat -> string)
    ensures forall x :: x in GatherAll(es, index, stamp).likes ==>
              exists i :: FirstWithId(es, i) && es[i].tweetId == x.tweetId
                          && es[i].fullText == x.fullText && es[i].expandedUrl == x.expandedUrl
    decreases |es|
  {
    if es != [] {
      var p := es[..|es| - 1];
      var n := |es| - 1;
      GatherFirst(p, index, stamp);
      var g0 := GatherAll(p, index, stamp);
      var e := es[n];
      forall x | x in GatherAll(es, index, stamp).likes
        ensures exists i :: FirstWithId(es, i) && es[i].tweetId == x.tweetId
                            && es[i].fullText == x.fullText && es[i].expandedUrl == x.expandedUrl
      {
        if x in g0.likes {
          var i :| FirstWithId(p, i) && p[i].tweetId == x.tweetId
                   && p[i].fullText == x.fullText && p[i].expandedUrl == x.expandedUrl;
          assert FirstWithId(es, i);
        } else {
          GatherSeen(p, index, stamp, e.tweetId);
          forall j | 0 <= j < n ensures es[j].tweetId != e.tweetId {
            assert p[j] == es[j];
          }
          assert FirstWithId(es, n);
        }
      }
    }
  }

  /** `e` is an entry whose tweet is already in the index. */
  function InIndex(index: set<string>): ArchiveEntry -> bool {
    (e: ArchiveEntry) => e.tweetId in index
  }

  /** `existingDuplicateCount` counts the entries the index already holds. */
  lemma {:induction false} GatherSkipped(es: seq<ArchiveEntry>, index: set<string>, stamp: nat -> string)
    ensures GatherAll(es, index, stamp).existingDuplicates == |Filter(es, InIndex(index))|
    decreases |es|
  {
    if es != [] {
      var p := es[..|es| - 1];
      GatherSkipped(p, index, stamp);
      assert es == p + [es[|es| - 1]];
      FilterConcat(p, [es[|es| - 1]], InIndex(index));
    }
  }

  /** The written records are the gathered ones, reordered by tweet ID from
      largest to smallest, still with distinct IDs; the ID list follows the
      same order. */
  lemma OutputSpec(g: Gathered)
    requires DistinctKeys(g.likes, TweetIdOf)
    ensures multiset(Output(g).likes) == multiset(g.likes)
    ensures SortedBy(Output(g).likes, TweetIdDesc)
    ensures DistinctKeys(Output(g).likes, TweetIdOf)
    ensures |Output(g).tweetIds| == |Output(g).likes|
    ensures forall k :: 0 <= k < |Output(g).likes| ==> Output(g).tweetIds[k] == Output(g).likes[k].tweetId
  {
    KeyOrderTotal(TweetIdDesc, TweetIdOf, true);
    SortByPerm(g.likes, TweetIdDesc);
    SortBySorted(g.likes, TweetIdDesc);
    SortByDistinct(g.likes, TweetIdDesc, TweetIdOf);
  }

  /** The written records are distinct, sorted, none for a tweet in the
      index, and each shaped from the first entry with its ID, for all the
      entries `es` of the export files (which a successful `Run` writes). */
  lemma OutputRecords(es: seq<ArchiveEntry>, index: set<string>, stamp: nat -> string)
    ensures var out := Output(GatherAll(es, index, stamp));
            && DistinctKeys(out.likes, TweetIdOf)
            && SortedBy(out.likes, TweetIdDesc)
            && forall x :: x in out.likes ==>
                 && x.id == "archive-" + x.tweetId && x.isArchive && x.tweetId !in index
                 && exists i :: FirstWithId(es, i) && es[i].tweetId == x.tweetId
                                && es[i].fullText == x.fullText && es[i].expandedUrl == x.expandedUrl
  {
    var g := GatherAll(es, index, stamp);
    GatherDistinct(es, index, stamp);
    GatherShape(es, index, stamp);
    GatherFirst(es, index, stamp);
    OutputSpec(g);
    SameMembers(Output(g).likes, g.likes);
  }

  lemma SameMembers<T>(a: seq<T>, b: seq<T>)
    requires multiset(a) == multiset(b)
    ensures forall x :: x in a <==> x in b
  {
    assert forall x :: x in a <==> x in multiset(a);
    assert forall x :: x in b <==> x in multiset(b);
  }

  /** The ID list holds the IDs of the gathered records. */
  lemma OutputIdsOf(g: Gathered, t: string)
    ensures t in Output(g).tweetIds <==> exists m :: 0 <= m < |g.likes| && g.likes[m].tweetId == t
  {
    var sorted := SortBy(g.likes, TweetIdDesc);
    SortByPerm(g.likes, TweetIdDesc);
    SameMembers(sorted, g.likes);
    var ids := Output(g).tweetIds;
    if t in ids {
      var k :| 0 <= k < |ids| && ids[k] == t;
      assert sorted[k] in g.likes;
      var m :| 0 <= m < |g.likes| && g.likes[m] == sorted[k];
    }
    if exists m :: 0 <= m < |g.likes| && g.likes[m].tweetId == t {
      var m :| 0 <= m < |g.likes| && g.likes[m].tweetId == t;
      assert g.likes[m] in sorted;
      var k :| 0 <= k < |sorted| && sorted[k] == g.likes[m];
      assert ids[k] == t;
    }
  }

  /** The ID list holds exactly the IDs of the entries that the index does not hold. */
  lemma OutputIds(es: seq<ArchiveEntry>, index: set<string>, stamp: nat -> string, t: string)
    ensures t in Output(GatherAll(es, index, stamp)).tweetIds <==>
              t !in index && exists i :: 0 <= i < |es| && es[i].tweetId == t
  {
    GatherSeenLikes(es, index, stamp, t);
    GatherSeen(es, index, stamp, t);
    OutputIdsOf(GatherAll(es, index, stamp), t);
  }
}
