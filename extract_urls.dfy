/** The URL index (src/scripts/extract-urls.ts): for every stored like whose
    fetched tweet has links, the links, an optional link-card summary and the
    date of the day file it sits in, sorted newest day first. */
module ExtractUrls {
  import opened LikeTypes
  import opened Text
  import opened Seqs
  import opened FileTree

  /** One entry of `urls`: each field of the tweet's URL entity, or `''`. */
  datatype UrlTriple = UrlTriple(url: string, expanded_url: string, display_url: string)

  /** The `card` member of an output entry. */
  datatype CardSummary = CardSummary(url: string, title: Option<string>, description: Option<string>, image: Option<string>)

  datatype ExtractedUrl = ExtractedUrl(
    tweet_id: string, username: string, tweet_url: string, liked_at: string,
    year: string, month: string, day: string,
    urls: seq<UrlTriple>, card: Option<CardSummary>)

  /** `a || b || c` on optional strings: the first truthy one, else the last. */
  function FirstTruthy(a: Option<string>, b: Option<string>, c: Option<string>): (r: Option<string>)
    ensures Truthy(a) ==> r == a
    ensures !Truthy(a) && Truthy(b) ==> r == b
    ensures !Truthy(a) && !Truthy(b) ==> r == c
  {
    if Truthy(a) then a else if Truthy(b) then b else c
  }

  /** `like.react_tweet_data?.entities?.urls?.length` is truthy. */
  predicate HasUrls(l: Like) {
    && l.react_tweet_data.Some?
    && l.react_tweet_data.value.entities.Some?
    && l.react_tweet_data.value.entities.value.urls.Some?
    && |l.react_tweet_data.value.entities.value.urls.value| > 0
  }

  function TripleOf(u: UrlEntity): UrlTriple {
    UrlTriple(OrEmpty(u.url), OrEmpty(u.expanded_url), OrEmpty(u.display_url))
  }

  /** The card summary: the card's URL or `''`, its title and description,
      and the first image of thumbnail, full-size photo and summary photo. */
  function CardOf(c: Card): CardSummary {
    CardSummary(OrEmpty(c.url), c.title, c.description,
                FirstTruthy(c.thumbnailImage, c.photoImageFull, c.summaryPhotoImage))
  }

  /** The entry pushed for a like with links, found in day file `year/month/day`. */
  function EntryOf(year: string, month: string, day: string, l: Like): ExtractedUrl
    requires HasUrls(l)
  {
    var data := l.react_tweet_data.value;
    var urls := data.entities.value.urls.value;
    ExtractedUrl(OrEmpty(l.tweet_id), OrEmpty(l.username), l.tweet_url, l.liked_at,
                 year, month, day,
                 seq(|urls|, i requires 0 <= i < |urls| => TripleOf(urls[i])),
                 if data.card.Some? then Some(CardOf(data.card.value)) else None)
  }

  /** The entries pushed for one day document, in body order. */
  function BodyEntries(year: string, month: string, day: string, body: seq<Like>): seq<ExtractedUrl>
    decreases |body|
  {
    if body == [] then []
    else
      var l := body[|body| - 1];
      BodyEntries(year, month, day, body[..|body| - 1]) + (if HasUrls(l) then [EntryOf(year, month, day, l)] else [])
  }

  /** The entries pushed for one file. Reading `pathParts[2]` of a path with
      fewer than three segments throws, and so does a parse that fails; a
      file without an array `body` gives nothing. */
  function FileEntries(f: StoreFile): Option<seq<ExtractedUrl>> {
    if |f.path| < 3 then None
    else if f.content.Unparseable? then None
    else if f.content.DayObject? then
      Some(BodyEntries(f.path[0], f.path[1], ReplaceFirst(f.path[2], ".json", ""), f.content.body))
    else Some([])
  }

  function EntryCollector(): StoreFile -> Option<seq<ExtractedUrl>> {
    f => FileEntries(f)
  }

  /** The string `${year}${month}${day}` the sort compares. */
  function DateKey(e: ExtractedUrl): string {
    e.year + e.month + e.day
  }

  /** Comparator `dateB.localeCompare(dateA)`: `a` may stand before `b` when
      its date key is not smaller. */
  predicate NewerFirst(a: ExtractedUrl, b: ExtractedUrl) {
    StrLe(DateKey(b), DateKey(a))
  }

  /** `extractUrls`: the JSON array it writes to `url-index.json`, or `None`
      when it throws before writing. */
  method ExtractUrls(files: seq<StoreFile>) returns (r: Option<seq<ExtractedUrl>>)
    ensures var pushed := CollectAll(GlobDayFiles(files), EntryCollector());
            r == if pushed.None? then None else Some(SortBy(pushed.value, NewerFirst))
  {
    var dayFiles := GlobDayFiles(files);
    var extractedUrls: seq<ExtractedUrl> := [];
    for i := 0 to |dayFiles|
      invariant CollectAll(dayFiles[..i], EntryCollector()) == Some(extractedUrls)
    {
      var f := dayFiles[i];
      if |f.path| < 3 || f.content.Unparseable? {
        CollectAllStop(dayFiles, i, EntryCollector());
        return None;
      }
      var year, month, day := f.path[0], f.path[1], ReplaceFirst(f.path[2], ".json", "");
      var w := extractedUrls;
      assert extractedUrls + [] == extractedUrls;
      if f.content.DayObject? {
        w := PushEntries(extractedUrls, year, month, day, f.content.body);
      }
      CollectAllStep(dayFiles, i, EntryCollector(), extractedUrls, FileEntries(f).value);
      extractedUrls := w;
    }
    assert dayFiles[..|dayFiles|] == dayFiles;
    return Some(SortBy(extractedUrls, NewerFirst));
  }

  /** The inner `for (const like of content.body)` loop. */
  method PushEntries(acc: seq<ExtractedUrl>, year: string, month: string, day: string, body: seq<Like>)
    returns (r: seq<ExtractedUrl>)
    ensures r == acc + BodyEntries(year, month, day, body)
  {
    r := acc;
    for i := 0 to |body|
      invariant r == acc + BodyEntries(year, month, day, body[..i])
    {
      assert body[..i + 1][..i] == body[..i];
      if HasUrls(body[i]) {
        r := r + [EntryOf(year, month, day, body[i])];
      }
    }
    assert body[..|body|] == body;
  }

  /** An entry is pushed exactly for each like that has links. */
  lemma {:induction false} BodyEntriesSpec(year: string, month: string, day: string, body: seq<Like>, x: ExtractedUrl)
    ensures x in BodyEntries(year, month, day, body) <==>
              exists l :: l in body && HasUrls(l) && x == EntryOf(year, month, day, l)
    decreases |body|
  {
    if body != [] {
      var b' := body[..|body| - 1];
      BodyEntriesSpec(year, month, day, b', x);
      assert body == b' + [body[|body| - 1]];
      if exists l :: l in body && HasUrls(l) && x == EntryOf(year, month, day, l) {
        var l :| l in body && HasUrls(l) && x == EntryOf(year, month, day, l);
        if l != body[|body| - 1] {
          assert l in b';
        }
      }
    }
  }

  /** The entry keeps the links' number and order with `''` for a missing
      field, has a card exactly when the tweet has one (its URL `''` when
      missing, its image the first present of the three), and carries the
      like's fields with `''` for a missing ID or username. */
  lemma EntryOfSpec(year: string, month: string, day: string, l: Like)
    requires HasUrls(l)
    ensures var e := EntryOf(year, month, day, l);
            var data := l.react_tweet_data.value;
            var urls := data.entities.value.urls.value;
            && |e.urls| == |urls|
            && (forall i :: 0 <= i < |urls| ==>
                  && (Truthy(urls[i].url) ==> e.urls[i].url == urls[i].url.value)
                  && (!Truthy(urls[i].url) ==> e.urls[i].url == "")
                  && (Truthy(urls[i].expanded_url) ==> e.urls[i].expanded_url == urls[i].expanded_url.value)
                  && (!Truthy(urls[i].expanded_url) ==> e.urls[i].expanded_url == "")
                  && (Truthy(urls[i].display_url) ==> e.urls[i].display_url == urls[i].display_url.value)
                  && (!Truthy(urls[i].display_url) ==> e.urls[i].display_url == ""))
            && (e.card.Some? <==> data.card.Some?)
            && (data.card.Some? ==>
                  && (Truthy(data.card.value.url) ==> e.card.value.url == data.card.value.url.value)
                  && (!Truthy(data.card.value.url) ==> e.card.value.url == "")
                  && e.card.value.title == data.card.value.title
                  && e.card.value.description == data.card.value.description
                  && (Truthy(data.card.value.thumbnailImage) ==> e.card.value.image == data.card.value.thumbnailImage)
                  && (!Truthy(data.card.value.thumbnailImage) && Truthy(data.card.value.photoImageFull) ==>
                        e.card.value.image == data.card.value.photoImageFull)
                  && (!Truthy(data.card.value.thumbnailImage) && !Truthy(data.card.value.photoImageFull) ==>
                        e.card.value.image == data.card.value.summaryPhotoImage))
            && e.year == year && e.month == month && e.day == day
            && (HasTweetId(l) ==> e.tweet_id == l.tweet_id.value) && (!HasTweetId(l) ==> e.tweet_id == "")
            && (Truthy(l.username) ==> e.username == l.username.value) && (!Truthy(l.username) ==> e.username == "")
            && e.tweet_url == l.tweet_url && e.liked_at == l.liked_at
  {
  }

  /** For a day file `<year>/<month>/<dd>.json` the date parts are the two
      directory names and `dd`. */
  lemma DayFromPath(f: StoreFile)
    requires |f.path| == 3 && IsDayFileName(f.path[2])
    ensures ReplaceFirst(f.path[2], ".json", "") == f.path[2][..2]
  {
    DayFileStem(f.path[2]);
  }

  /** The written index holds exactly the pushed entries, newest date key
      first, entries of one key in the order they were pushed. */
  lemma OutputSpec(pushed: seq<ExtractedUrl>, z: ExtractedUrl)
    ensures multiset(SortBy(pushed, NewerFirst)) == multiset(pushed)
    ensures SortedBy(SortBy(pushed, NewerFirst), NewerFirst)
    ensures TiedWith(SortBy(pushed, NewerFirst), NewerFirst, z) == TiedWith(pushed, NewerFirst, z)
  {
    SortByPerm(pushed, NewerFirst);
    KeyOrderTotal(NewerFirst, DateKey, true);
    SortBySorted(pushed, NewerFirst);
    SortByStable(pushed, NewerFirst, z);
  }
}
