/** Filling in the fetched tweet payload of every stored like
    (src/scripts/insert-tweet-to-json.ts): each day document
    `<year>/<month>/<day>.json` under the content directory is read, its likes
    without `react_tweet_data` are fetched, and the document is written back
    sorted by `liked_at`, latest first. */
module InsertTweet {
  import opened LikeTypes
  import opened Text
  import opened Seqs
  import opened FileTree
  import opened LikesProcessor

  /** One `writeFileSync(dayJsonPath, JSON.stringify({ body }))`. */
  datatype DayWrite = DayWrite(year: string, month: string, file: string, body: seq<Like>)

  /** A scan over directory entries that ends at the first step that does not
      end `Running`; the writes of the steps taken stay. */
  function Scan<S, W>(s: seq<S>, f: S -> (seq<W>, Status)): (seq<W>, Status)
    decreases |s|
  {
    if s == [] then ([], Running)
    else
      var (w, st) := Scan(s[..|s| - 1], f);
      if st != Running then (w, st)
      else (w + f(s[|s| - 1]).0, f(s[|s| - 1]).1)
  }

  /** One step on top of a scan still running. */
  lemma ScanStep<S, W>(s: seq<S>, i: nat, f: S -> (seq<W>, Status))
    requires i < |s| && Scan(s[..i], f).1 == Running
    ensures Scan(s[..i + 1], f) == (Scan(s[..i], f).0 + f(s[i]).0, f(s[i]).1)
  {
    assert s[..i + 1][..i] == s[..i];
  }

  /** Once a step stops the scan, no later entry is looked at. */
  lemma {:induction false} ScanStops<S, W>(s: seq<S>, i: nat, f: S -> (seq<W>, Status))
    requires i <= |s| && Scan(s[..i], f).1 != Running
    ensures Scan(s, f) == Scan(s[..i], f)
    decreases |s| - i
  {
    if i < |s| {
      assert s[..i + 1][..i] == s[..i];
      ScanStops(s, i + 1, f);
    } else {
      assert s[..i] == s;
    }
  }

  /** The scan runs to the end exactly when every step does, and otherwise it
      ends with the status of the first step that stops it. */
  lemma {:induction false} ScanStatus<S, W>(s: seq<S>, f: S -> (seq<W>, Status))
    ensures Scan(s, f).1 == Running <==> forall i :: 0 <= i < |s| ==> f(s[i]).1 == Running
    ensures Scan(s, f).1 != Running ==>
              exists i :: 0 <= i < |s| && f(s[i]).1 == Scan(s, f).1
                          && (forall j :: 0 <= j < i ==> f(s[j]).1 == Running)
    decreases |s|
  {
    if s != [] {
      var s' := s[..|s| - 1];
      ScanStatus(s', f);
      forall j | 0 <= j < |s'| ensures s'[j] == s[j] { }
    }
  }

  /** Every write of a scan is a write of one of its steps. */
  lemma {:induction false} ScanWrites<S, W>(s: seq<S>, f: S -> (seq<W>, Status), w: W)
    requires w in Scan(s, f).0
    ensures exists i :: 0 <= i < |s| && w in f(s[i]).0
    decreases |s|
  {
    var s' := s[..|s| - 1];
    if w in Scan(s', f).0 {
      ScanWrites(s', f, w);
      var i :| 0 <= i < |s'| && w in f(s'[i]).0;
      assert s[i] == s'[i];
    }
  }

  /** One like of the inner loop: a like that has `react_tweet_data`, or has
      no `tweet_id`, is kept as it is; any other is fetched and takes the
      payload (possibly none) and the `tombstone` and `notFound` flags. A
      fetch that throws rejects the whole run (`None`). */
  function Enrich(l: Like, fetch: string -> FetchOutcome): Option<Like> {
    if l.react_tweet_data.Some? then Some(l)
    else if !HasTweetId(l) then Some(l)
    else
      match fetch(l.tweet_id.value)
      case FetchThrew => None
      case Fetched(data, tombstone, notFound) =>
        Some(l.(react_tweet_data := data, private := tombstone, notfound := notFound))
  }

  /** The inner loop over a body, building `newLikeList` in order. */
  function EnrichAll(body: seq<Like>, fetch: string -> FetchOutcome): Option<seq<Like>>
    decreases |body|
  {
    if body == [] then Some([])
    else
      var r := EnrichAll(body[..|body| - 1], fetch);
      var e := Enrich(body[|body| - 1], fetch);
      if r.None? || e.None? then None else Some(r.value + [e.value])
  }

  /** One day entry `file` of month directory `year/month`. A name without
      `.json` returns from the whole run; a read or parse that throws, or a
      parse without an array `body` (iterating `undefined`), or a fetch that
      throws, rejects it. */
  function VisitDay(year: string, month: string, f: Entry, fetch: string -> FetchOutcome, instant: string -> int)
    : (seq<DayWrite>, Status)
  {
    if !EndsWith(f.name, ".json") then ([], Returned)
    else if !ReadJson(f).DayObject? then ([], Threw)
    else
      var r := EnrichAll(ReadJson(f).body, fetch);
      if r.None? then ([], Threw)
      else ([DayWrite(year, month, f.name, SortBy(r.value, LaterFirst(instant)))], Running)
  }

  function DayVisitor(year: string, month: string, fetch: string -> FetchOutcome, instant: string -> int)
    : Entry -> (seq<DayWrite>, Status)
  {
    f => VisitDay(year, month, f, fetch, instant)
  }

  /** One month directory of year `year`; listing it throws when it is not a
      readable directory. */
  function VisitMonth(year: string, m: Entry, fetch: string -> FetchOutcome, instant: string -> int)
    : (seq<DayWrite>, Status)
  {
    if Readdir(m).None? then ([], Threw)
    else Scan(Readdir(m).value, DayVisitor(year, m.name, fetch, instant))
  }

  function MonthVisitor(year: string, fetch: string -> FetchOutcome, instant: string -> int)
    : Entry -> (seq<DayWrite>, Status)
  {
    m => VisitMonth(year, m, fetch, instant)
  }

  function VisitYear(y: Entry, fetch: string -> FetchOutcome, instant: string -> int): (seq<DayWrite>, Status) {
    if Readdir(y).None? then ([], Threw)
    else Scan(Readdir(y).value, MonthVisitor(y.name, fetch, instant))
  }

  function YearVisitor(fetch: string -> FetchOutcome, instant: string -> int): Entry -> (seq<DayWrite>, Status) {
    y => VisitYear(y, fetch, instant)
  }

  /** The whole run over the content directory `root`. */
  function Run(root: Entry, fetch: string -> FetchOutcome, instant: string -> int): (seq<DayWrite>, Status) {
    if Readdir(root).None? then ([], Threw)
    else Scan(Readdir(root).value, YearVisitor(fetch, instant))
  }

  /** A failed fetch anywhere in a prefix fails the whole inner loop. */
  lemma {:induction false} EnrichAllNone(body: seq<Like>, k: nat, fetch: string -> FetchOutcome)
    requires k <= |body| && EnrichAll(body[..k], fetch).None?
    ensures EnrichAll(body, fetch).None?
    decreases |body| - k
  {
    if k < |body| {
      assert body[..k + 1][..k] == body[..k];
      EnrichAllNone(body, k + 1, fetch);
    } else {
      assert body[..k] == body;
    }
  }

  /** `insertTweetDataToJson`, given the content directory, the fetch outcome
      for each tweet ID and the instant of a `liked_at` string: the day
      documents it writes, in order, and how the run ends. */
  method InsertTweetDataToJson(root: Entry, fetch: string -> FetchOutcome, instant: string -> int)
    returns (writes: seq<DayWrite>, status: Status)
    ensures (writes, status) == Run(root, fetch, instant)
  {
    var years := Readdir(root);
    if years.None? {
      return [], Threw;
    }
    var ys := years.value;
    writes := [];
    for i := 0 to |ys|
      invariant Scan(ys[..i], YearVisitor(fetch, instant)) == (writes, Running)
    {
      ScanStep(ys, i, YearVisitor(fetch, instant));
      var months := Readdir(ys[i]);
      if months.None? {
        assert writes + [] == writes;
        ScanStops(ys, i + 1, YearVisitor(fetch, instant));
        return writes, Threw;
      }
      var w;
      w, status := ProcessYear(ys[i].name, months.value, fetch, instant);
      writes := writes + w;
      if status != Running {
        ScanStops(ys, i + 1, YearVisitor(fetch, instant));
        return;
      }
    }
    assert ys[..|ys|] == ys;
    status := Running;
  }

  /** The loop over the month directories of one year. */
  method ProcessYear(year: string, ms: seq<Entry>, fetch: string -> FetchOutcome, instant: string -> int)
    returns (writes: seq<DayWrite>, status: Status)
    ensures (writes, status) == Scan(ms, MonthVisitor(year, fetch, instant))
  {
    writes := [];
    for j := 0 to |ms|
      invariant Scan(ms[..j], MonthVisitor(year, fetch, instant)) == (writes, Running)
    {
      ScanStep(ms, j, MonthVisitor(year, fetch, instant));
      var dayFiles := Readdir(ms[j]);
      if dayFiles.None? {
        assert writes + [] == writes;
        ScanStops(ms, j + 1, MonthVisitor(year, fetch, instant));
        return writes, Threw;
      }
      var w;
      w, status := ProcessMonth(year, ms[j].name, dayFiles.value, fetch, instant);
      writes := writes + w;
      if status != Running {
        ScanStops(ms, j + 1, MonthVisitor(year, fetch, instant));
        return;
      }
    }
    assert ms[..|ms|] == ms;
    status := Running;
  }

  /** The loop over the day files of one month directory. */
  method ProcessMonth(year: string, month: string, fs: seq<Entry>, fetch: string -> FetchOutcome, instant: string -> int)
    returns (writes: seq<DayWrite>, status: Status)
    ensures (writes, status) == Scan(fs, DayVisitor(year, month, fetch, instant))
  {
    writes := [];
    for k := 0 to |fs|
      invariant Scan(fs[..k], DayVisitor(year, month, fetch, instant)) == (writes, Running)
    {
      ScanStep(fs, k, DayVisitor(year, month, fetch, instant));
      var dayFile := fs[k];
      if !EndsWith(dayFile.name, ".json") {
        assert writes + [] == writes;
        ScanStops(fs, k + 1, DayVisitor(year, month, fetch, instant));
        return writes, Returned;
      }
      var json := ReadJson(dayFile);
      if !json.DayObject? {
        assert writes + [] == writes;
        ScanStops(fs, k + 1, DayVisitor(year, month, fetch, instant));
        return writes, Threw;
      }
      var newLikeList := EnrichLikes(json.body, fetch);
      if newLikeList.None? {
        assert writes + [] == writes;
        ScanStops(fs, k + 1, DayVisitor(year, month, fetch, instant));
        return writes, Threw;
      }
      var sorted := SortBy(newLikeList.value, LaterFirst(instant));
      writes := writes + [DayWrite(year, month, dayFile.name, sorted)];
    }
    assert fs[..|fs|] == fs;
    status := Running;
  }

  /** The loop over the likes of one day document. */
  method EnrichLikes(likes: seq<Like>, fetch: string -> FetchOutcome) returns (r: Option<seq<Like>>)
    ensures r == EnrichAll(likes, fetch)
  {
    var newLikeList := [];
    for k := 0 to |likes|
      invariant EnrichAll(likes[..k], fetch) == Some(newLikeList)
    {
      assert likes[..k + 1][..k] == likes[..k];
      var like := likes[k];
      if like.react_tweet_data.Some? {
        newLikeList := newLikeList + [like];
        continue;
      }
      if !HasTweetId(like) {
        newLikeList := newLikeList + [like];
        continue;
      }
      var o := fetch(like.tweet_id.value);
      if o.FetchThrew? {
        EnrichAllNone(likes, k + 1, fetch);
        return None;
      }
      like := like.(react_tweet_data := o.data, private := o.tombstone, notfound := o.notFound);
      newLikeList := newLikeList + [like];
    }
    assert likes[..|likes|] == likes;
    return Some(newLikeList);
  }

  /** A like with a payload, or without a tweet ID, is kept as it is; any
      other is fetched (whatever its `private` and `notfound` flags say) and
      takes the payload and the two flags of the outcome; a throwing fetch
      rejects. */
  lemma EnrichSpec(l: Like, fetch: string -> FetchOutcome)
    ensures l.react_tweet_data.Some? ==> Enrich(l, fetch) == Some(l)
    ensures !HasTweetId(l) ==> Enrich(l, fetch) == Some(l)
    ensures l.react_tweet_data.None? && HasTweetId(l) ==>
              match fetch(l.tweet_id.value)
              case FetchThrew => Enrich(l, fetch).None?
              case Fetched(data, tombstone, notFound) =>
                Enrich(l, fetch) == Some(l.(react_tweet_data := data, private := tombstone, notfound := notFound))
    ensures Enrich(l, fetch).Some? ==>
              Enrich(l, fetch).value.tweet_id == l.tweet_id && Enrich(l, fetch).value.liked_at == l.liked_at
  {
  }

  /** The inner loop fails exactly when one fetch throws; otherwise no like is
      dropped or added, and each is the like enriched at its own position. */
  lemma {:induction false} EnrichAllSpec(body: seq<Like>, fetch: string -> FetchOutcome)
    ensures EnrichAll(body, fetch).Some? <==> forall k :: 0 <= k < |body| ==> Enrich(body[k], fetch).Some?
    ensures EnrichAll(body, fetch).Some? ==>
              && |EnrichAll(body, fetch).value| == |body|
              && forall k :: 0 <= k < |body| ==> EnrichAll(body, fetch).value[k] == Enrich(body[k], fetch).value
    decreases |body|
  {
    if body != [] {
      var b' := body[..|body| - 1];
      EnrichAllSpec(b', fetch);
      forall k | 0 <= k < |b'| ensures b'[k] == body[k] { }
    }
  }

  /** A day file that does not stop the run is written back once, under its
      own name: its likes enriched one for one, with nothing dropped, sorted
      by `liked_at`, latest first; a like that already had a payload is
      written unchanged. */
  lemma DayWriteSpec(year: string, month: string, f: Entry, fetch: string -> FetchOutcome, instant: string -> int)
    requires VisitDay(year, month, f, fetch, instant).1 == Running
    ensures EndsWith(f.name, ".json") && ReadJson(f).DayObject?
    ensures var body := ReadJson(f).body;
            var ws := VisitDay(year, month, f, fetch, instant).0;
            && EnrichAll(body, fetch).Some?
            && |ws| == 1 && ws[0].year == year && ws[0].month == month && ws[0].file == f.name
            && multiset(ws[0].body) == multiset(EnrichAll(body, fetch).value)
            && |ws[0].body| == |body|
            && SortedBy(ws[0].body, LaterFirst(instant))
            && forall l :: l in body && l.react_tweet_data.Some? ==> l in ws[0].body
  {
    var body := ReadJson(f).body;
    var r := EnrichAll(body, fetch).value;
    var out := SortBy(r, LaterFirst(instant));
    EnrichAllSpec(body, fetch);
    SortByPerm(r, LaterFirst(instant));
    LaterFirstTotal(instant);
    SortBySorted(r, LaterFirst(instant));
    forall l | l in body && l.react_tweet_data.Some? ensures l in out {
      var k :| 0 <= k < |body| && body[k] == l;
      assert r[k] == l;
      assert l in multiset(r);
    }
  }

  /** Every document the run writes is sorted by `liked_at`, latest first, and
      holds the enriched likes of a `.json` day file, one for one. */
  lemma RunWritesSorted(root: Entry, fetch: string -> FetchOutcome, instant: string -> int, w: DayWrite)
    requires w in Run(root, fetch, instant).0
    ensures SortedBy(w.body, LaterFirst(instant))
    ensures EndsWith(w.file, ".json")
  {
    var ys := Readdir(root).value;
    ScanWrites(ys, YearVisitor(fetch, instant), w);
    var i :| 0 <= i < |ys| && w in VisitYear(ys[i], fetch, instant).0;
    var ms := Readdir(ys[i]).value;
    ScanWrites(ms, MonthVisitor(ys[i].name, fetch, instant), w);
    var j :| 0 <= j < |ms| && w in VisitMonth(ys[i].name, ms[j], fetch, instant).0;
    var fs := Readdir(ms[j]).value;
    ScanWrites(fs, DayVisitor(ys[i].name, ms[j].name, fetch, instant), w);
    var k :| 0 <= k < |fs| && w in VisitDay(ys[i].name, ms[j].name, fs[k], fetch, instant).0;
    DayWriteSpec(ys[i].name, ms[j].name, fs[k], fetch, instant);
  }

  /** The first day entry without `.json` ends the whole run: in its month,
      the writes are those of the files before it, and no later file is
      looked at. */
  lemma EarlyReturn(year: string, month: string, fs: seq<Entry>, k: nat, fetch: string -> FetchOutcome, instant: string -> int)
    requires k < |fs| && !EndsWith(fs[k].name, ".json")
    requires Scan(fs[..k], DayVisitor(year, month, fetch, instant)).1 == Running
    ensures Scan(fs, DayVisitor(year, month, fetch, instant))
            == (Scan(fs[..k], DayVisitor(year, month, fetch, instant)).0, Returned)
  {
    ScanStep(fs, k, DayVisitor(year, month, fetch, instant));
    assert Scan(fs[..k], DayVisitor(year, month, fetch, instant)).0 + [] == Scan(fs[..k], DayVisitor(year, month, fetch, instant)).0;
    ScanStops(fs, k + 1, DayVisitor(year, month, fetch, instant));
  }

  /** A run that returns early stops every enclosing loop: a year directory
      whose scan returns ends the scan of the years. */
  lemma YearReturns(root: Entry, fetch: string -> FetchOutcome, instant: string -> int, i: nat)
    requires Readdir(root).Some? && i < |Readdir(root).value|
    requires VisitYear(Readdir(root).value[i], fetch, instant).1 == Returned
    requires forall j :: 0 <= j < i ==> VisitYear(Readdir(root).value[j], fetch, instant).1 == Running
    ensures Run(root, fetch, instant).1 == Returned
  {
    var ys := Readdir(root).value;
    ScanStatus(ys[..i], YearVisitor(fetch, instant));
    ScanStep(ys, i, YearVisitor(fetch, instant));
    ScanStops(ys, i + 1, YearVisitor(fetch, instant));
  }
}
