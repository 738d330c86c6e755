/** The client-side search index (src/scripts/build-search-index.ts): one item
    per public liked tweet, deduplicated by ID through a `Map` and sorted by
    date, newest first. */
module SearchIndex {
  import opened LikeTypes
  import opened Text
  import opened Seqs
  import opened FileTree
  import opened Dedup
  import opened TweetIndex

  datatype SearchIndexItem = SearchIndexItem(id: string, text: string, username: string, date: string, path: string)

  function ItemId(it: SearchIndexItem): string { it.id }

  /** `like.tweet_id && !like.private && !like.notfound` */
  predicate Eligible(l: Like) {
    HasTweetId(l) && !l.private && !l.notfound
  }

  /** `"<year>/<month>/<day>"` from the tweet index, or `''` when the ID has no entry. */
  function DateOf(index: Index, id: string): string {
    if id in index then index[id].year + "/" + index[id].month + "/" + index[id].day else ""
  }

  function ItemOf(index: Index, l: Like): SearchIndexItem
    requires l.tweet_id.Some?
  {
    var id := l.tweet_id.value;
    SearchIndexItem(id, OrEmpty(l.text), OrEmpty(l.username), DateOf(index, id), "/tweet/" + id)
  }

  /** The items pushed for one day document, in body order. */
  function BodyItems(index: Index, body: seq<Like>): seq<SearchIndexItem>
    decreases |body|
  {
    if body == [] then []
    else
      var l := body[|body| - 1];
      BodyItems(index, body[..|body| - 1]) + (if Eligible(l) then [ItemOf(index, l)] else [])
  }

  /** The items pushed for one file; `None` when its parse throws. */
  function FileItems(index: Index, f: StoreFile): Option<seq<SearchIndexItem>> {
    if f.content.Unparseable? then None
    else if f.content.DayObject? then Some(BodyItems(index, f.content.body))
    else Some([])
  }

  function FileScanner(index: Index): StoreFile -> Option<seq<SearchIndexItem>> {
    f => FileItems(index, f)
  }

  /** Comparator `(a, b) => b.date.localeCompare(a.date)`: `a` may stand before `b`
      when its date is not earlier. */
  predicate NewerFirst(a: SearchIndexItem, b: SearchIndexItem) {
    StrLe(b.date, a.date)
  }

  /** Dedup through the `Map`, then the stable sort. */
  function Finish(items: seq<SearchIndexItem>): seq<SearchIndexItem> {
    SortBy(DedupByKey(items, ItemId), NewerFirst)
  }

  /** `buildSearchIndex`: the index it writes, or `None` when it throws before
      writing (the tweet index or a day file does not parse). `files` is what
      the glob over the content directory finds. */
  method BuildSearchIndex(files: seq<StoreFile>, tweetIndex: Option<Index>) returns (r: Option<seq<SearchIndexItem>>)
    ensures tweetIndex.None? ==> r.None?
    ensures tweetIndex.Some? ==>
              var pushed := CollectAll(GlobDayFiles(files), FileScanner(tweetIndex.value));
              r == if pushed.None? then None else Some(Finish(pushed.value))
  {
    if tweetIndex.None? {
      return None;
    }
    var index := tweetIndex.value;
    var dayFiles := GlobDayFiles(files);
    var searchIndex: seq<SearchIndexItem> := [];
    var i := 0;
    while i < |dayFiles|
      invariant 0 <= i <= |dayFiles|
      invariant CollectAll(dayFiles[..i], FileScanner(index)) == Some(searchIndex)
    {
      var f := dayFiles[i];
      if f.content.Unparseable? {
        CollectAllStop(dayFiles, i, FileScanner(index));
        return None;
      }
      var w := searchIndex;
      assert searchIndex + [] == searchIndex;
      if f.content.DayObject? {
        w := PushBodyItems(searchIndex, index, f.content.body);
      }
      CollectAllStep(dayFiles, i, FileScanner(index), searchIndex, FileItems(index, f).value);
      assert w == searchIndex + FileItems(index, f).value;
      searchIndex := w;
      i := i + 1;
    }
    assert dayFiles[..i] == dayFiles;
    return Some(Finish(searchIndex));
  }

  /** The inner `for (const like of content.body)` loop. */
  method PushBodyItems(acc: seq<SearchIndexItem>, index: Index, body: seq<Like>) returns (r: seq<SearchIndexItem>)
    ensures r == acc + BodyItems(index, body)
  {
    r := acc;
    var i := 0;
    while i < |body|
      invariant 0 <= i <= |body|
      invariant r == acc + BodyItems(index, body[..i])
    {
      assert body[..i + 1][..i] == body[..i];
      if Eligible(body[i]) {
        r := r + [ItemOf(index, body[i])];
      }
      i := i + 1;
    }
    assert body[..i] == body;
  }

  /** An item is pushed exactly for each eligible like, and carries that like's
      ID, its text and username (or `''`) and the path `/tweet/<id>`. */
  lemma {:induction false} BodyItemsSpec(index: Index, body: seq<Like>, it: SearchIndexItem)
    ensures it in BodyItems(index, body) <==> exists l :: l in body && Eligible(l) && it == ItemOf(index, l)
    decreases |body|
  {
    if body != [] {
      var b' := body[..|body| - 1];
      BodyItemsSpec(index, b', it);
      assert body == b' + [body[|body| - 1]];
      if exists l :: l in body && Eligible(l) && it == ItemOf(index, l) {
        var l :| l in body && Eligible(l) && it == ItemOf(index, l);
        if l != body[|body| - 1] {
          assert l in b';
        }
      }
    }
  }

  /** The date is empty exactly when the ID has no tweet-index entry. */
  lemma ItemOfSpec(index: Index, l: Like)
    requires Eligible(l)
    ensures ItemOf(index, l).id == l.tweet_id.value && ItemOf(index, l).path == "/tweet/" + l.tweet_id.value
    ensures ItemOf(index, l).date == "" <==> l.tweet_id.value !in index
    ensures Truthy(l.text) ==> ItemOf(index, l).text == l.text.value
    ensures !Truthy(l.text) ==> ItemOf(index, l).text == ""
  {
    var id := l.tweet_id.value;
    if id in index {
      assert |DateOf(index, id)| >= 2;
    }
  }

  /** The written index: one item per ID, the same IDs as the pushed items,
      newest date first. */
  lemma FinishSpec(items: seq<SearchIndexItem>, k: string)
    ensures DistinctKeys(Finish(items), ItemId)
    ensures k in Keys(Finish(items), ItemId) <==> k in Keys(items, ItemId)
    ensures SortedBy(Finish(items), NewerFirst)
    ensures multiset(Finish(items)) == multiset(DedupByKey(items, ItemId))
  {
    var d := DedupByKey(items, ItemId);
    DedupDistinct(items, ItemId);
    SortByDistinct(d, NewerFirst, ItemId);
    SortByKeyIff(d, NewerFirst, ItemId, k);
    DedupKeyIff(items, ItemId, k);
    KeyOrderTotal(NewerFirst, (x: SearchIndexItem) => x.date, true);
    SortBySorted(d, NewerFirst);
    SortByPerm(d, NewerFirst);
  }

  /** Each written item is the last one pushed with its ID. */
  lemma FinishLast(items: seq<SearchIndexItem>, x: SearchIndexItem)
    requires x in Finish(items)
    ensures 0 <= LastKey(items, x.id, ItemId) && x == items[LastKey(items, x.id, ItemId)]
  {
    var d := DedupByKey(items, ItemId);
    SortByPerm(d, NewerFirst);
    assert x in multiset(Finish(items));
    var i :| 0 <= i < |d| && d[i] == x;
    DedupLast(items, ItemId);
  }

  /** Within one date, the sort keeps the dedup order. */
  lemma FinishStable(items: seq<SearchIndexItem>, z: SearchIndexItem)
    ensures TiedWith(Finish(items), NewerFirst, z) == TiedWith(DedupByKey(items, ItemId), NewerFirst, z)
  {
    KeyOrderTotal(NewerFirst, (x: SearchIndexItem) => x.date, true);
    SortByStable(DedupByKey(items, ItemId), NewerFirst, z);
  }
}
