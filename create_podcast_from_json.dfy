/** The source selection of the podcast script
    (src/scripts/create-podcast-from-json.ts): the day files of the last
    `DAYS` days that exist, oldest first, and the blog-article links of the
    likes they hold, each once. */
module PodcastSources {
  import opened LikeTypes
  import opened Text
  import opened Seqs
  import opened FileTree
  import opened Calendar

  /** `DAYS`: the number of days looked at, today included. */
  const Days: nat := 2

  /** The extensions of links that are not articles: images, video, audio,
      documents, archives, executables and code. */
  const NonBlogExtensions: seq<string> := [
    "jpg", "jpeg", "png", "gif", "bmp", "svg", "webp",
    "mp4", "webm", "avi", "mov", "wmv", "flv",
    "mp3", "wav", "ogg", "flac",
    "pdf", "doc", "docx", "xls", "xlsx", "ppt", "pptx",
    "zip", "rar", "tar", "gz", "7z",
    "exe", "dmg", "apk", "ipa",
    "css", "js", "json", "xml"]

  // ---------------------------------------------------------------------
  // isBlogArticleUrl

  /** `path.split('.').pop()`: the text after the last `.`. */
  function LastField(path: string): string {
    var parts := Split(path, '.');
    parts[|parts| - 1]
  }

  /** The extension compared with the list, lower-cased. */
  function Extension(path: string): string {
    Lower(LastField(path))
  }

  /** `isBlogArticleUrl(url)`; `pathname` gives `new URL(u).pathname`, or
      `None` when the constructor throws. A missing `expanded_url` reaches
      the constructor as `undefined`, which does not parse either. */
  function IsBlogArticleUrl(url: Option<string>, pathname: string -> Option<string>): bool {
    if url.None? then false
    else if pathname(url.value).None? then false
    else
      var extension := Extension(pathname(url.value).value);
      !(extension != "" && extension in NonBlogExtensions)
  }

  /** The last field of a split on `.` holds no `.`; it is the whole text
      when there is no `.`, and otherwise what follows the last `.`. */
  lemma LastFieldSpec(path: string)
    ensures '.' !in LastField(path)
    ensures '.' !in path ==> LastField(path) == path
    ensures '.' in path ==> EndsWith(path, "." + LastField(path))
  {
    SplitLast(path, '.');
  }

  /** A link is an article link exactly when its URL parses and the
      lower-cased text after the last `.` of its path, or the whole path
      without a `.`, is not one of the listed extensions. */
  lemma IsBlogArticleUrlSpec(url: Option<string>, pathname: string -> Option<string>)
    ensures url.None? || pathname(url.value).None? ==> !IsBlogArticleUrl(url, pathname)
    ensures url.Some? && pathname(url.value).Some? ==>
              (IsBlogArticleUrl(url, pathname) <==> Extension(pathname(url.value).value) !in NonBlogExtensions)
  {
    assert "" !in NonBlogExtensions;
  }

  // ---------------------------------------------------------------------
  // getLikeJsonPathList

  /** `padStart(4, '0')` */
  function Pad4(s: string): (r: string)
    ensures |s| >= 4 ==> r == s
    ensures |s| < 4 ==> |r| == 4 && EndsWith(r, s)
    ensures forall i :: 0 <= i < |r| - |s| ==> r[i] == '0'
    decreases 4 - |s|
  {
    if |s| >= 4 then s else Pad4("0" + s)
  }

  /** date-fns `format(d, 'yyyyMMdd')`: the year of the era padded to four
      digits, then the month and the day padded to two. */
  function DateStamp(d: Date): string
    requires Valid(d)
  {
    Pad4(NatToString(if d.year > 0 then d.year else 1 - d.year)) + Pad2(NatToString(d.month)) + Pad2(NatToString(d.day))
  }

  /** `s.slice(a, b)` with `a <= b`. */
  function Slice(s: string, a: nat, b: nat): string
    requires a <= b
  {
    s[Min(a, |s|)..Min(b, |s|)]
  }

  /** The day file path the script builds from a date stamp. */
  function JsonPathOf(date: string): string {
    "src/content/likes/" + Slice(date, 0, 4) + "/" + Slice(date, 4, 6) + "/" + Slice(date, 6, 8) + ".json"
  }

  /** The path checked for the `i`-th date, today first. */
  function Candidate(today: Date, i: nat): string
    requires Valid(today)
  {
    JsonPathOf(DateStamp(DaysBefore(today, i)))
  }

  function Candidates(today: Date): (r: seq<string>)
    requires Valid(today)
    ensures |r| == Days
    ensures forall i :: 0 <= i < Days ==> r[i] == Candidate(today, i)
  {
    seq(Days, i requires 0 <= i < Days => Candidate(today, i))
  }

  /** `getLikeJsonPathList(to)`, given the Tokyo date of `to` and
      `fs.existsSync` as `present`. */
  method GetLikeJsonPathList(today: Date, present: string -> bool) returns (r: seq<string>)
    requires Valid(today)
    ensures r == Reverse(Filter(Candidates(today), present))
  {
    var dateList := seq(Days, i requires 0 <= i < Days => DateStamp(DaysBefore(today, i)));
    var jsonPathList: seq<string> := [];
    for i := 0 to |dateList|
      invariant jsonPathList == Filter(Candidates(today)[..i], present)
    {
      var jsonPath := JsonPathOf(dateList[i]);
      assert Candidates(today)[..i + 1] == Candidates(today)[..i] + [jsonPath];
      FilterConcat(Candidates(today)[..i], [jsonPath], present);
      if present(jsonPath) {
        jsonPathList := jsonPathList + [jsonPath];
      }
    }
    assert Candidates(today)[..|dateList|] == Candidates(today);
    r := Reverse(jsonPathList);
  }

  /** The existing paths of yesterday and today, in that order. */
  lemma PathListSpec(today: Date, present: string -> bool)
    requires Valid(today)
    ensures Reverse(Filter(Candidates(today), present)) ==
              (if present(Candidate(today, 1)) then [Candidate(today, 1)] else []) +
              (if present(Candidate(today, 0)) then [Candidate(today, 0)] else [])
  {
    ReverseFilterPair(Candidates(today), present);
  }

  lemma ReverseFilterPair(c: seq<string>, present: string -> bool)
    requires |c| == 2
    ensures Reverse(Filter(c, present)) ==
              (if present(c[1]) then [c[1]] else []) + (if present(c[0]) then [c[0]] else [])
  {
    assert c == [c[0]] + [c[1]];
    FilterConcat([c[0]], [c[1]], present);
    ReverseShort(Filter([c[0]], present), Filter([c[1]], present));
  }

  lemma ReverseShort<T>(x: seq<T>, y: seq<T>)
    requires |x| <= 1 && |y| <= 1
    ensures Reverse(x + y) == y + x
  {
    var s, r := x + y, Reverse(x + y);
    forall i | 0 <= i < |r| ensures r[i] == (y + x)[i] {
      assert r[i] == s[|s| - 1 - i];
    }
  }

  lemma NatToStringFourDigits(n: nat)
    requires 1000 <= n <= 9999
    ensures |NatToString(n)| == 4
  {
    var a := n / 10;
    var b := a / 10;
    assert 100 <= a <= 999 && 10 <= b <= 99;
    NatToStringSpec(b);
    assert NatToString(a) == NatToString(b) + [DigitChar(a % 10)];
    assert NatToString(n) == NatToString(a) + [DigitChar(n % 10)];
  }

  lemma SliceStamp(y: string, m: string, d: string)
    requires |y| == 4 && |m| == 2 && |d| == 2
    ensures Slice(y + m + d, 0, 4) == y && Slice(y + m + d, 4, 6) == m && Slice(y + m + d, 6, 8) == d
  {
    var s := y + m + d;
    assert s[0..4] == y && s[4..6] == m && s[6..8] == d;
  }

  /** For a four-digit year the path is `src/content/likes/<yyyy>/<MM>/<dd>.json`. */
  lemma CandidatePath(d: Date)
    requires Valid(d) && 1000 <= d.year <= 9999
    ensures JsonPathOf(DateStamp(d)) ==
              "src/content/likes/" + NatToString(d.year) + "/" + Pad2(NatToString(d.month)) + "/" +
              Pad2(NatToString(d.day)) + ".json"
  {
    assert DateStamp(d) == Pad4(NatToString(d.year)) + Pad2(NatToString(d.month)) + Pad2(NatToString(d.day));
    StampPath(d.year, d.month, d.day);
  }

  lemma StampPath(year: nat, month: nat, day: nat)
    requires 1000 <= year <= 9999 && month < 100 && day < 100
    ensures JsonPathOf(Pad4(NatToString(year)) + Pad2(NatToString(month)) + Pad2(NatToString(day))) ==
              "src/content/likes/" + NatToString(year) + "/" + Pad2(NatToString(month)) + "/" +
              Pad2(NatToString(day)) + ".json"
  {
    NatToStringFourDigits(year);
    NatToStringSpec(month);
    NatToStringSpec(day);
    var y, m, dd := NatToString(year), Pad2(NatToString(month)), Pad2(NatToString(day));
    assert |y| == 4 && |m| == 2 && |dd| == 2;
    assert Pad4(y) == y;
    SliceStamp(y, m, dd);
  }

  // ---------------------------------------------------------------------
  // getUrls

  /** The article link a URL entity contributes. */
  function BlogUrl(u: UrlEntity, pathname: string -> Option<string>): Option<string> {
    if IsBlogArticleUrl(u.expanded_url, pathname) then Some(u.expanded_url.value) else None
  }

  function BlogUrlCollector(pathname: string -> Option<string>): UrlEntity -> Option<string> {
    u => BlogUrl(u, pathname)
  }

  /** The links one like contributes; `None` when it has tweet data without
      `entities`, where reading `entities.urls` throws. */
  function LikeUrls(l: Like, pathname: string -> Option<string>): Option<seq<string>> {
    if l.react_tweet_data.None? then Some([])
    else if l.react_tweet_data.value.entities.None? then None
    else if l.react_tweet_data.value.entities.value.urls.None? then Some([])
    else Some(Collect(l.react_tweet_data.value.entities.value.urls.value, BlogUrlCollector(pathname)))
  }

  function LikeUrlCollector(pathname: string -> Option<string>): Like -> Option<seq<string>> {
    l => LikeUrls(l, pathname)
  }

  /** The links of one day file; `None` when reading or parsing it throws or
      its `body` is not an array to iterate. */
  function FileUrls(path: string, read: string -> Content, pathname: string -> Option<string>): Option<seq<string>> {
    if read(path).DayObject? then CollectAll(read(path).body, LikeUrlCollector(pathname)) else None
  }

  function FileUrlCollector(read: string -> Content, pathname: string -> Option<string>): string -> Option<seq<string>> {
    p => FileUrls(p, read, pathname)
  }

  /** The links pushed into `urls`, in order; `None` when the loop throws. */
  function PushedUrls(paths: seq<string>, read: string -> Content, pathname: string -> Option<string>): Option<seq<string>> {
    CollectAll(paths, FileUrlCollector(read, pathname))
  }

  /** `getUrls(jsonPathList)`, given the file reader and the URL parser. */
  method GetUrls(jsonPathList: seq<string>, read: string -> Content, pathname: string -> Option<string>)
    returns (r: Option<seq<string>>)
    ensures PushedUrls(jsonPathList, read, pathname).None? ==> r.None?
    ensures PushedUrls(jsonPathList, read, pathname).Some? ==>
              r == Some(Unique(PushedUrls(jsonPathList, read, pathname).value))
  {
    var urls: seq<string> := [];
    for i := 0 to |jsonPathList|
      invariant CollectAll(jsonPathList[..i], FileUrlCollector(read, pathname)) == Some(urls)
    {
      var json := read(jsonPathList[i]);
      if !json.DayObject? {
        CollectAllStop(jsonPathList, i, FileUrlCollector(read, pathname));
        return None;
      }
      var next := PushLikes(urls, json.body, pathname);
      if next.None? {
        CollectAllStop(jsonPathList, i, FileUrlCollector(read, pathname));
        return None;
      }
      CollectAllStep(jsonPathList, i, FileUrlCollector(read, pathname), urls, FileUrls(jsonPathList[i], read, pathname).value);
      urls := next.value;
    }
    assert jsonPathList[..|jsonPathList|] == jsonPathList;
    return Some(Unique(urls));
  }

  /** The loop over the likes of one file. */
  method PushLikes(acc: seq<string>, likes: seq<Like>, pathname: string -> Option<string>) returns (r: Option<seq<string>>)
    ensures CollectAll(likes, LikeUrlCollector(pathname)).None? ==> r.None?
    ensures CollectAll(likes, LikeUrlCollector(pathname)).Some? ==>
              r == Some(acc + CollectAll(likes, LikeUrlCollector(pathname)).value)
  {
    var urls := acc;
    ghost var pushed: seq<string> := [];
    for k := 0 to |likes|
      invariant CollectAll(likes[..k], LikeUrlCollector(pathname)) == Some(pushed)
      invariant urls == acc + pushed
    {
      var like := likes[k];
      if like.react_tweet_data.Some? {
        if like.react_tweet_data.value.entities.None? {
          CollectAllStop(likes, k, LikeUrlCollector(pathname));
          return None;
        }
        if like.react_tweet_data.value.entities.value.urls.Some? {
          var u := like.react_tweet_data.value.entities.value.urls.value;
          urls := PushBlogUrls(urls, u, pathname);
        } else {
          assert urls + [] == urls;
        }
      } else {
        assert urls + [] == urls;
      }
      CollectAllStep(likes, k, LikeUrlCollector(pathname), pushed, LikeUrls(like, pathname).value);
      pushed := pushed + LikeUrls(like, pathname).value;
    }
    assert likes[..|likes|] == likes;
    return Some(urls);
  }

  /** The loop over the URL entities of one like. */
  method PushBlogUrls(acc: seq<string>, urls: seq<UrlEntity>, pathname: string -> Option<string>) returns (r: seq<string>)
    ensures r == acc + Collect(urls, BlogUrlCollector(pathname))
  {
    r := acc;
    for j := 0 to |urls|
      invariant r == acc + Collect(urls[..j], BlogUrlCollector(pathname))
    {
      CollectStep(urls, j, BlogUrlCollector(pathname));
      var url := urls[j];
      if IsBlogArticleUrl(url.expanded_url, pathname) {
        r := r + [url.expanded_url.value];
      }
    }
    assert urls[..|urls|] == urls;
  }

  /** The links a like contributes are the article links of its URL entities. */
  lemma LikeUrlsMembers(l: Like, pathname: string -> Option<string>, x: string)
    requires LikeUrls(l, pathname).Some?
    ensures x in LikeUrls(l, pathname).value <==>
              && l.react_tweet_data.Some?
              && l.react_tweet_data.value.entities.value.urls.Some?
              && exists u :: u in l.react_tweet_data.value.entities.value.urls.value
                             && IsBlogArticleUrl(u.expanded_url, pathname)
                             && x == u.expanded_url.value
  {
    if l.react_tweet_data.Some? && l.react_tweet_data.value.entities.value.urls.Some? {
      CollectMembers(l.react_tweet_data.value.entities.value.urls.value, BlogUrlCollector(pathname), x);
    }
  }

  /** A file contributes the links of its likes, and only when each of them
      can be read. */
  lemma FileUrlsMembers(path: string, read: string -> Content, pathname: string -> Option<string>, x: string)
    requires FileUrls(path, read, pathname).Some?
    ensures read(path).DayObject?
    ensures forall l :: l in read(path).body ==> LikeUrls(l, pathname).Some?
    ensures x in FileUrls(path, read, pathname).value <==>
              exists l :: l in read(path).body && x in LikeUrls(l, pathname).value
  {
    var body := read(path).body;
    CollectAllMembers(body, LikeUrlCollector(pathname), x);
    forall l | l in body ensures LikeUrls(l, pathname).Some? {
      var k :| 0 <= k < |body| && body[k] == l;
    }
    if exists l :: l in body && x in LikeUrls(l, pathname).value {
      var l :| l in body && x in LikeUrls(l, pathname).value;
      var k :| 0 <= k < |body| && body[k] == l;
    }
  }

  /** `getUrls` returns each article link of the likes of the files once, in
      the order of first occurrence, and nothing else. */
  lemma GetUrlsSpec(paths: seq<string>, read: string -> Content, pathname: string -> Option<string>, x: string)
    requires PushedUrls(paths, read, pathname).Some?
    ensures var r := Unique(PushedUrls(paths, read, pathname).value);
            && (x in r <==> exists i :: 0 <= i < |paths| && FileUrls(paths[i], read, pathname).Some?
                                        && x in FileUrls(paths[i], read, pathname).value)
            && (forall i, j :: 0 <= i < j < |r| ==> r[i] != r[j])
            && (forall i, j :: 0 <= i < j < |r| ==>
                  FirstIndex(PushedUrls(paths, read, pathname).value, r[i]) <
                  FirstIndex(PushedUrls(paths, read, pathname).value, r[j]))
  {
    UniqueSpec(PushedUrls(paths, read, pathname).value);
    CollectAllMembers(paths, FileUrlCollector(read, pathname), x);
  }

  /** `getUrls` throws exactly when one of the files cannot be read as a
      day document, or one of its likes has tweet data without `entities`. */
  lemma GetUrlsFails(paths: seq<string>, read: string -> Content, pathname: string -> Option<string>)
    ensures PushedUrls(paths, read, pathname).None? <==>
              exists i :: 0 <= i < |paths| && FileUrls(paths[i], read, pathname).None?
    ensures forall p :: FileUrls(p, read, pathname).None? <==>
              !read(p).DayObject? || exists k :: 0 <= k < |read(p).body| && LikeUrls(read(p).body[k], pathname).None?
  {
    CollectAllFails(paths, FileUrlCollector(read, pathname));
    forall p ensures FileUrls(p, read, pathname).None? <==>
              !read(p).DayObject? || exists k :: 0 <= k < |read(p).body| && LikeUrls(read(p).body[k], pathname).None? {
      if read(p).DayObject? {
        CollectAllFails(read(p).body, LikeUrlCollector(pathname));
      }
    }
  }
}
