/** The canonicaliser (src/scripts/likes-processor.ts): every raw like record
    is normalised and merged into the day document of the local day it was
    liked on, `<year>/<month>/<day>.json` under the content directory. */
module LikesProcessor {
  import opened LikeTypes
  import opened Text
  import opened Seqs
  import opened FileTree
  import opened RawDedup

  /** The calendar day the host's local getters report for an instant. */
  datatype LocalDay = LocalDay(year: nat, month: nat, day: nat)

  /** The day document path `<year>/<month>/<day>.json`, as its three parts. */
  datatype DayPath = DayPath(year: string, month: string, day: string)

  /** The day documents under the content directory, as their JSON parses. */
  type Days = map<DayPath, Content>

  /** `getFullYear().toString()`, `(getMonth() + 1)` and `getDate()` padded to two digits. */
  function DayPathOf(d: LocalDay): DayPath {
    DayPath(NatToString(d.year), Pad2(NatToString(d.month)), Pad2(NatToString(d.day)))
  }

  /** For a calendar date the path parts are the decimal year and two-digit
      month and day strings that read back as the date. */
  lemma DayPathSpec(d: LocalDay)
    requires 1 <= d.month <= 12 && 1 <= d.day <= 31
    ensures |DayPathOf(d).month| == 2 && AllDigits(DayPathOf(d).month) && ParseNat(DayPathOf(d).month) == d.month
    ensures |DayPathOf(d).day| == 2 && AllDigits(DayPathOf(d).day) && ParseNat(DayPathOf(d).day) == d.day
    ensures AllDigits(DayPathOf(d).year) && ParseNat(DayPathOf(d).year) == d.year
  {
    NatToStringSpec(d.year);
    Pad2Digits(d.month);
    Pad2Digits(d.day);
  }

  lemma Pad2Digits(n: nat)
    requires 1 <= n < 100
    ensures |Pad2(NatToString(n))| == 2 && AllDigits(Pad2(NatToString(n)))
    ensures ParseNat(Pad2(NatToString(n))) == n
  {
    NatToStringSpec(n);
    var s := NatToString(n);
    if |s| == 1 {
      var p := Pad2(s);
      assert p == "0" + s;
      assert p[..1] == "0";
      assert ParseNat(p[..1]) == 0 by {
        assert p[..1][..0] == [];
      }
      assert ParseNat(s) == DigitValue(s[0]) by {
        assert s[..0] == [];
      }
    }
  }

  /** The record as written: `tweet_id` set, `private` and `notfound` false, and
      `embed_code` deleted when it is truthy. */
  function Normalised(l: Like, id: string): Like {
    l.(tweet_id := Some(id), private := false, notfound := false,
       embed_code := if Truthy(l.embed_code) then None else l.embed_code)
  }

  /** Comparator `new Date(b.liked_at).getTime() - new Date(a.liked_at).getTime()`:
      `a` may stand before `b` when it was liked no earlier. */
  function LaterFirst(instant: string -> int): (Like, Like) -> bool {
    (a: Like, b: Like) => instant(a.liked_at) >= instant(b.liked_at)
  }

  lemma LaterFirstTotal(instant: string -> int)
    ensures TotalPreorder(LaterFirst(instant))
  {
  }

  /** `dayJson.body.some(t => t.tweet_id === tweetId)` */
  predicate HoldsId(body: seq<Like>, id: string) {
    exists k :: 0 <= k < |body| && body[k].tweet_id == Some(id)
  }

  /** The document written for a record with ID `id`, given what the day
      file holds, or `None` when the file is left as it is. Anything but an
      object with an array `body` (a missing file, a failed read or parse, a
      missing `body`) makes the `try` throw, and the `catch` writes a fresh
      document holding the record alone. */
  function Merged(cur: Option<Content>, rec: Like, id: string, instant: string -> int): Option<Content> {
    if cur.Some? && cur.value.DayObject? then
      if HoldsId(cur.value.body, id) then None
      else Some(DayObject(SortBy(cur.value.body + [rec], LaterFirst(instant))))
    else Some(DayObject([rec]))
  }

  /** How one step of the scan ends. */
  datatype Status = Running | Returned | Threw

  /** `processAndGenerateContent` on the inputs the file system and the
      clock supply: the raw data directory, the local day and the instant of
      a `liked_at` string. The content directory is the class's state. */
  class ContentDir {
    var days: Days

    constructor (initial: Days)
      ensures days == initial
    {
      days := initial;
    }

    /** `writeFileSync(join(contentDir, year, month, day + '.json'), ...)` */
    method Write(p: DayPath, c: Content)
      modifies this
      ensures days == old(days)[p := c]
    {
      days := days[p := c];
    }

    /** One raw `.json` file: normalise the record and merge it into its day
        document. */
    method MergeRecord(l: Like, localDay: string -> LocalDay, instant: string -> int)
      modifies this
      ensures days == MergedDays(old(days), l, localDay, instant)
    {
      var id := ExtractTweetId(l.tweet_url);
      if id.None? {
        return;
      }
      var rec := Normalised(l, id.value);
      var p := DayPathOf(localDay(l.liked_at));
      var cur := if p in days then Some(days[p]) else None;
      var next := Merged(cur, rec, id.value, instant);
      if next.Some? {
        Write(p, next.value);
      }
    }

    /** The whole run over the raw data directory `dataDir`. */
    method ProcessAndGenerateContent(dataDir: Entry, localDay: string -> LocalDay, instant: string -> int)
      returns (status: Status)
      modifies this
      ensures (days, status) == RunAll(old(days), dataDir, localDay, instant)
    {
      var yearMonths := Readdir(dataDir);
      if yearMonths.None? {
        return Threw;
      }
      var ms := yearMonths.value;
      ghost var d0 := days;
      var i := 0;
      while i < |ms|
        invariant 0 <= i <= |ms|
        invariant ScanMonths(d0, ms[..i], localDay, instant) == (days, Running)
      {
        assert ms[..i + 1][..i] == ms[..i];
        var files := Readdir(ms[i]);
        if files.None? {
          ScanMonthsStops(d0, ms, i + 1, localDay, instant);
          return Threw;
        }
        status := ProcessFiles(files.value, localDay, instant);
        if status != Running {
          ScanMonthsStops(d0, ms, i + 1, localDay, instant);
          return;
        }
        i := i + 1;
      }
      assert ms[..i] == ms;
      return Running;
    }

    /** The inner `for (const file of files)` loop of one month directory. */
    method ProcessFiles(fs: seq<Entry>, localDay: string -> LocalDay, instant: string -> int)
      returns (status: Status)
      modifies this
      ensures (days, status) == ScanFiles(old(days), fs, localDay, instant)
    {
      ghost var d0 := days;
      var j := 0;
      while j < |fs|
        invariant 0 <= j <= |fs|
        invariant ScanFiles(d0, fs[..j], localDay, instant) == (days, Running)
      {
        assert fs[..j + 1][..j] == fs[..j];
        var f := fs[j];
        if !EndsWith(f.name, ".json") {
          ScanFilesStops(d0, fs, j + 1, localDay, instant);
          return Returned;
        }
        var data := ReadJson(f);
        if !data.LikeObject? {
          ScanFilesStops(d0, fs, j + 1, localDay, instant);
          return Threw;
        }
        MergeRecord(data.like, localDay, instant);
        j := j + 1;
      }
      assert fs[..j] == fs;
      return Running;
    }
  }

  /** The day documents after merging raw record `l`. A record whose URL
      yields no ID is skipped. */
  function MergedDays(days: Days, l: Like, localDay: string -> LocalDay, instant: string -> int): Days {
    var id := ExtractTweetId(l.tweet_url);
    if id.None? then days
    else
      var p := DayPathOf(localDay(l.liked_at));
      var next := Merged(if p in days then Some(days[p]) else None, Normalised(l, id.value), id.value, instant);
      if next.None? then days else days[p := next.value]
  }

  /** One file of a month directory. A name without `.json` returns from the
      whole function; a read or parse that throws, or a parse that is not a
      like record (whose `tweet_url` the ID extraction then reads as
      `undefined`), propagates to the outer `catch`, which rethrows. */
  function VisitFile(days: Days, f: Entry, localDay: string -> LocalDay, instant: string -> int): (Days, Status) {
    if !EndsWith(f.name, ".json") then (days, Returned)
    else if !ReadJson(f).LikeObject? then (days, Threw)
    else (MergedDays(days, ReadJson(f).like, localDay, instant), Running)
  }

  /** The files of one month directory in listing order, up to the first
      step that does not end `Running`. */
  function ScanFiles(days: Days, fs: seq<Entry>, localDay: string -> LocalDay, instant: string -> int): (Days, Status)
    decreases |fs|
  {
    if fs == [] then (days, Running)
    else
      var (d, st) := ScanFiles(days, fs[..|fs| - 1], localDay, instant);
      if st != Running then (d, st) else VisitFile(d, fs[|fs| - 1], localDay, instant)
  }

  /** The year-month directories in listing order; listing one that is not a
      readable directory throws. */
  function ScanMonths(days: Days, ms: seq<Entry>, localDay: string -> LocalDay, instant: string -> int): (Days, Status)
    decreases |ms|
  {
    if ms == [] then (days, Running)
    else
      var (d, st) := ScanMonths(days, ms[..|ms| - 1], localDay, instant);
      if st != Running then (d, st)
      else if Readdir(ms[|ms| - 1]).None? then (d, Threw)
      else ScanFiles(d, Readdir(ms[|ms| - 1]).value, localDay, instant)
  }

  /** The run over the data directory. Writes made before a throw stay. */
  function RunAll(days: Days, dataDir: Entry, localDay: string -> LocalDay, instant: string -> int): (Days, Status) {
    if Readdir(dataDir).None? then (days, Threw)
    else ScanMonths(days, Readdir(dataDir).value, localDay, instant)
  }

  /** Once a step stops the scan, no later file is looked at. */
  lemma {:induction false} ScanFilesStops(days: Days, fs: seq<Entry>, j: nat, localDay: string -> LocalDay, instant: string -> int)
    requires j <= |fs|
    requires ScanFiles(days, fs[..j], localDay, instant).1 != Running
    ensures ScanFiles(days, fs, localDay, instant) == ScanFiles(days, fs[..j], localDay, instant)
    decreases |fs| - j
  {
    if j < |fs| {
      assert fs[..j + 1][..j] == fs[..j];
      ScanFilesStops(days, fs, j + 1, localDay, instant);
    } else {
      assert fs[..j] == fs;
    }
  }

  /** Once a month directory stops the scan, no later directory is looked at. */
  lemma {:induction false} ScanMonthsStops(days: Days, ms: seq<Entry>, i: nat, localDay: string -> LocalDay, instant: string -> int)
    requires i <= |ms|
    requires ScanMonths(days, ms[..i], localDay, instant).1 != Running
    ensures ScanMonths(days, ms, localDay, instant) == ScanMonths(days, ms[..i], localDay, instant)
    decreases |ms| - i
  {
    if i < |ms| {
      assert ms[..i + 1][..i] == ms[..i];
      ScanMonthsStops(days, ms, i + 1, localDay, instant);
    } else {
      assert ms[..i] == ms;
    }
  }

  /** The first entry without `.json` ends the whole run: the documents are
      those after the files before it, whatever follows in this or any later
      directory. */
  lemma EarlyReturn(days: Days, ms: seq<Entry>, i: nat, j: nat, localDay: string -> LocalDay, instant: string -> int)
    requires i < |ms| && Readdir(ms[i]).Some? && j < |Readdir(ms[i]).value|
    requires !EndsWith(Readdir(ms[i]).value[j].name, ".json")
    requires ScanMonths(days, ms[..i], localDay, instant).1 == Running
    requires ScanFiles(ScanMonths(days, ms[..i], localDay, instant).0, Readdir(ms[i]).value[..j], localDay, instant).1 == Running
    ensures ScanMonths(days, ms, localDay, instant)
            == (ScanFiles(ScanMonths(days, ms[..i], localDay, instant).0, Readdir(ms[i]).value[..j], localDay, instant).0, Returned)
  {
    var fs := Readdir(ms[i]).value;
    var d := ScanMonths(days, ms[..i], localDay, instant).0;
    assert fs[..j + 1][..j] == fs[..j];
    ScanFilesStops(d, fs, j + 1, localDay, instant);
    assert ms[..i + 1][..i] == ms[..i];
    ScanMonthsStops(days, ms, i + 1, localDay, instant);
  }

  /** A record whose URL yields no tweet ID changes nothing. */
  lemma SkipWithoutId(days: Days, l: Like, localDay: string -> LocalDay, instant: string -> int)
    requires ExtractTweetId(l.tweet_url).None?
    ensures MergedDays(days, l, localDay, instant) == days
  {
  }

  /** The record written carries the extracted ID, is neither private nor
      not-found, has no truthy `embed_code`, and keeps every other field. */
  lemma NormalisedSpec(l: Like, id: string)
    ensures var r := Normalised(l, id);
            && r.tweet_id == Some(id) && !r.private && !r.notfound && !Truthy(r.embed_code)
            && r.text == l.text && r.username == l.username && r.tweet_url == l.tweet_url
            && r.liked_at == l.liked_at && r.react_tweet_data == l.react_tweet_data
            && r.first_link == l.first_link && r.created_at == l.created_at && r.source == l.source
            && (!Truthy(l.embed_code) ==> r.embed_code == l.embed_code)
  {
  }

  /** Only the record's own day document can change, and exactly when the
      record has an ID. */
  lemma MergedDaysFrame(days: Days, l: Like, localDay: string -> LocalDay, instant: string -> int, p: DayPath)
    requires p != DayPathOf(localDay(l.liked_at))
    ensures MergedDays(days, l, localDay, instant).Keys == days.Keys + (if ExtractTweetId(l.tweet_url).Some? then {DayPathOf(localDay(l.liked_at))} else {})
    ensures p in days ==> MergedDays(days, l, localDay, instant)[p] == days[p]
  {
  }

  /** A day document that already holds the ID is left as it is. */
  lemma MergeUnchanged(days: Days, l: Like, localDay: string -> LocalDay, instant: string -> int)
    requires ExtractTweetId(l.tweet_url).Some?
    requires var p := DayPathOf(localDay(l.liked_at));
             p in days && days[p].DayObject? && HoldsId(days[p].body, ExtractTweetId(l.tweet_url).value)
    ensures MergedDays(days, l, localDay, instant) == days
  {
  }

  /** After a merge the record's day document holds its ID. */
  lemma MergedHoldsId(days: Days, l: Like, localDay: string -> LocalDay, instant: string -> int)
    requires ExtractTweetId(l.tweet_url).Some?
    ensures var p := DayPathOf(localDay(l.liked_at));
            var once := MergedDays(days, l, localDay, instant);
            p in once && once[p].DayObject? && HoldsId(once[p].body, ExtractTweetId(l.tweet_url).value)
  {
    var id := ExtractTweetId(l.tweet_url).value;
    var p := DayPathOf(localDay(l.liked_at));
    var once := MergedDays(days, l, localDay, instant);
    var rec := Normalised(l, id);
    if !(p in days && days[p].DayObject? && HoldsId(days[p].body, id)) {
      if p in days && days[p].DayObject? {
        var body := days[p].body + [rec];
        SortByPerm(body, LaterFirst(instant));
        assert rec in multiset(SortBy(body, LaterFirst(instant)));
        var k :| 0 <= k < |once[p].body| && once[p].body[k] == rec;
      } else {
        assert once[p].body[0] == rec;
      }
    }
  }

  /** Merging the same record twice is merging it once: re-running the
      canonicaliser over the same raw files changes nothing more. */
  lemma MergeIdempotent(days: Days, l: Like, localDay: string -> LocalDay, instant: string -> int)
    ensures MergedDays(MergedDays(days, l, localDay, instant), l, localDay, instant) == MergedDays(days, l, localDay, instant)
  {
    if ExtractTweetId(l.tweet_url).Some? {
      MergedHoldsId(days, l, localDay, instant);
      MergeUnchanged(MergedDays(days, l, localDay, instant), l, localDay, instant);
    }
  }

  /** A document without the ID gains exactly the record, and its body is
      re-sorted by `liked_at`, latest first, ties kept in their order. */
  lemma MergeAppends(days: Days, l: Like, localDay: string -> LocalDay, instant: string -> int)
    requires ExtractTweetId(l.tweet_url).Some?
    requires var p := DayPathOf(localDay(l.liked_at));
             p in days && days[p].DayObject? && !HoldsId(days[p].body, ExtractTweetId(l.tweet_url).value)
    ensures var p := DayPathOf(localDay(l.liked_at));
            var rec := Normalised(l, ExtractTweetId(l.tweet_url).value);
            var body := MergedDays(days, l, localDay, instant)[p].body;
            && MergedDays(days, l, localDay, instant)[p].DayObject?
            && |body| == |days[p].body| + 1
            && multiset(body) == multiset(days[p].body) + multiset{rec}
            && SortedBy(body, LaterFirst(instant))
  {
    var p := DayPathOf(localDay(l.liked_at));
    var rec := Normalised(l, ExtractTweetId(l.tweet_url).value);
    var s := days[p].body + [rec];
    SortByPerm(s, LaterFirst(instant));
    LaterFirstTotal(instant);
    SortBySorted(s, LaterFirst(instant));
  }

  /** A day document that is missing, cannot be read or parsed, or has no
      array `body` is replaced by `{ body: [record] }`. */
  lemma MergeCreates(days: Days, l: Like, localDay: string -> LocalDay, instant: string -> int)
    requires ExtractTweetId(l.tweet_url).Some?
    requires var p := DayPathOf(localDay(l.liked_at)); p !in days || !days[p].DayObject?
    ensures MergedDays(days, l, localDay, instant)[DayPathOf(localDay(l.liked_at))]
            == DayObject([Normalised(l, ExtractTweetId(l.tweet_url).value)])
  {
  }

  // Re-running the canonicaliser

  /** The records a scan of one month's files merges, in order, and how the
      scan ends; both depend on the listing alone, not on the documents. */
  function FileRecords(fs: seq<Entry>): (seq<Like>, Status)
    decreases |fs|
  {
    if fs == [] then ([], Running)
    else
      var (rs, st) := FileRecords(fs[..|fs| - 1]);
      var f := fs[|fs| - 1];
      if st != Running then (rs, st)
      else if !EndsWith(f.name, ".json") then (rs, Returned)
      else if !ReadJson(f).LikeObject? then (rs, Threw)
      else (rs + [ReadJson(f).like], Running)
  }

  /** The records the scan of the month directories merges, and its end. */
  function MonthRecords(ms: seq<Entry>): (seq<Like>, Status)
    decreases |ms|
  {
    if ms == [] then ([], Running)
    else
      var (rs, st) := MonthRecords(ms[..|ms| - 1]);
      if st != Running then (rs, st)
      else if Readdir(ms[|ms| - 1]).None? then (rs, Threw)
      else
        var (fr, fst) := FileRecords(Readdir(ms[|ms| - 1]).value);
        (rs + fr, fst)
  }

  function RunRecords(dataDir: Entry): (seq<Like>, Status) {
    if Readdir(dataDir).None? then ([], Threw) else MonthRecords(Readdir(dataDir).value)
  }

  /** Merging records one after the other. */
  function MergeAll(days: Days, rs: seq<Like>, localDay: string -> LocalDay, instant: string -> int): Days
    decreases |rs|
  {
    if rs == [] then days
    else MergedDays(MergeAll(days, rs[..|rs| - 1], localDay, instant), rs[|rs| - 1], localDay, instant)
  }

  /** The record has left its mark: it has no ID, or its day document holds it. */
  predicate Absorbed(days: Days, l: Like, localDay: string -> LocalDay) {
    var id := ExtractTweetId(l.tweet_url);
    var p := DayPathOf(localDay(l.liked_at));
    id.Some? ==> p in days && days[p].DayObject? && HoldsId(days[p].body, id.value)
  }

  lemma {:induction false} MergeAllAppend(days: Days, a: seq<Like>, b: seq<Like>, localDay: string -> LocalDay, instant: string -> int)
    ensures MergeAll(days, a + b, localDay, instant) == MergeAll(MergeAll(days, a, localDay, instant), b, localDay, instant)
    decreases |b|
  {
    if b == [] {
      assert a + b == a;
    } else {
      assert (a + b)[..|a + b| - 1] == a + b[..|b| - 1];
      MergeAllAppend(days, a, b[..|b| - 1], localDay, instant);
    }
  }

  /** Adding a record and re-sorting keeps every ID the body held. */
  lemma HoldsIdAfterInsert(body: seq<Like>, rec: Like, id: string, le: (Like, Like) -> bool)
    requires HoldsId(body, id)
    ensures HoldsId(SortBy(body + [rec], le), id)
  {
    var s := body + [rec];
    SortByPerm(s, le);
    var k :| 0 <= k < |body| && body[k].tweet_id == Some(id);
    assert s[k] in multiset(SortBy(s, le));
    var k2 :| 0 <= k2 < |SortBy(s, le)| && SortBy(s, le)[k2] == s[k];
  }

  /** A later merge never takes an absorbed record's ID out of its document:
      a document holding it is only ever extended and re-sorted. */
  lemma MergeKeepsAbsorbed(days: Days, l: Like, m: Like, localDay: string -> LocalDay, instant: string -> int)
    requires Absorbed(days, l, localDay)
    ensures Absorbed(MergedDays(days, m, localDay, instant), l, localDay)
  {
    var id := ExtractTweetId(l.tweet_url);
    var idm := ExtractTweetId(m.tweet_url);
    var p := DayPathOf(localDay(l.liked_at));
    if id.Some? && idm.Some? {
      if DayPathOf(localDay(m.liked_at)) != p {
        MergedDaysFrame(days, m, localDay, instant, p);
      } else if HoldsId(days[p].body, idm.value) {
        MergeUnchanged(days, m, localDay, instant);
      } else {
        HoldsIdAfterInsert(days[p].body, Normalised(m, idm.value), id.value, LaterFirst(instant));
      }
    }
  }

  /** After merging a list, every record of it is absorbed. */
  lemma {:induction false} MergeAllAbsorbs(days: Days, rs: seq<Like>, localDay: string -> LocalDay, instant: string -> int)
    ensures forall l :: l in rs ==> Absorbed(MergeAll(days, rs, localDay, instant), l, localDay)
    decreases |rs|
  {
    if rs != [] {
      var init := rs[..|rs| - 1];
      var last := rs[|rs| - 1];
      var d := MergeAll(days, init, localDay, instant);
      MergeAllAbsorbs(days, init, localDay, instant);
      forall l | l in rs
        ensures Absorbed(MergedDays(d, last, localDay, instant), l, localDay)
      {
        if l == last {
          if ExtractTweetId(l.tweet_url).Some? {
            MergedHoldsId(d, l, localDay, instant);
          }
        } else {
          assert l in init by {
            var k :| 0 <= k < |rs| && rs[k] == l;
            assert k < |rs| - 1 && init[k] == l;
          }
          MergeKeepsAbsorbed(d, l, last, localDay, instant);
        }
      }
    }
  }

  /** Records already absorbed change nothing when merged again. */
  lemma {:induction false} MergeAllFixed(days: Days, rs: seq<Like>, localDay: string -> LocalDay, instant: string -> int)
    requires forall l :: l in rs ==> Absorbed(days, l, localDay)
    ensures MergeAll(days, rs, localDay, instant) == days
    decreases |rs|
  {
    if rs != [] {
      var init := rs[..|rs| - 1];
      var last := rs[|rs| - 1];
      forall l | l in init
        ensures Absorbed(days, l, localDay)
      {
        var k :| 0 <= k < |init| && init[k] == l;
        assert rs[k] == l;
      }
      MergeAllFixed(days, init, localDay, instant);
      assert MergeAll(days, rs, localDay, instant) == MergedDays(days, last, localDay, instant);
      assert Absorbed(days, last, localDay) by {
        assert rs[|rs| - 1] == last;
      }
      if ExtractTweetId(last.tweet_url).Some? {
        MergeUnchanged(days, last, localDay, instant);
      }
    }
  }

  /** The file loop merges `FileRecords` and ends as it says. */
  lemma {:induction false} ScanFilesRecords(days: Days, fs: seq<Entry>, localDay: string -> LocalDay, instant: string -> int)
    ensures ScanFiles(days, fs, localDay, instant)
            == (MergeAll(days, FileRecords(fs).0, localDay, instant), FileRecords(fs).1)
    decreases |fs|
  {
    if fs != [] {
      var rs := FileRecords(fs[..|fs| - 1]).0;
      var f := fs[|fs| - 1];
      ScanFilesRecords(days, fs[..|fs| - 1], localDay, instant);
      if FileRecords(fs[..|fs| - 1]).1 == Running && EndsWith(f.name, ".json") && ReadJson(f).LikeObject? {
        assert (rs + [ReadJson(f).like])[..|rs|] == rs;
      }
    }
  }

  /** The month loop merges `MonthRecords` and ends as it says. */
  lemma {:induction false} ScanMonthsRecords(days: Days, ms: seq<Entry>, localDay: string -> LocalDay, instant: string -> int)
    ensures ScanMonths(days, ms, localDay, instant)
            == (MergeAll(days, MonthRecords(ms).0, localDay, instant), MonthRecords(ms).1)
    decreases |ms|
  {
    if ms != [] {
      var rs := MonthRecords(ms[..|ms| - 1]).0;
      ScanMonthsRecords(days, ms[..|ms| - 1], localDay, instant);
      if MonthRecords(ms[..|ms| - 1]).1 == Running && Readdir(ms[|ms| - 1]).Some? {
        var fs := Readdir(ms[|ms| - 1]).value;
        var d := MergeAll(days, rs, localDay, instant);
        ScanFilesRecords(d, fs, localDay, instant);
        MergeAllAppend(days, rs, FileRecords(fs).0, localDay, instant);
      }
    }
  }

  /** A run is a fold of `MergedDays` over records fixed by the data
      directory: what the content directory held before decides only the
      documents, never which records are merged or how the run ends. */
  lemma RunAllRecords(days: Days, dataDir: Entry, localDay: string -> LocalDay, instant: string -> int)
    ensures RunAll(days, dataDir, localDay, instant)
            == (MergeAll(days, RunRecords(dataDir).0, localDay, instant), RunRecords(dataDir).1)
  {
    if Readdir(dataDir).Some? {
      ScanMonthsRecords(days, Readdir(dataDir).value, localDay, instant);
    }
  }

  /** Re-running the whole canonicaliser over the same raw data directory
      changes no document and ends the same way: the run is safe to repeat. */
  lemma RunAllIdempotent(days: Days, dataDir: Entry, localDay: string -> LocalDay, instant: string -> int)
    ensures var once := RunAll(days, dataDir, localDay, instant);
            RunAll(once.0, dataDir, localDay, instant) == once
  {
    var rs := RunRecords(dataDir).0;
    RunAllRecords(days, dataDir, localDay, instant);
    var d := MergeAll(days, rs, localDay, instant);
    RunAllRecords(d, dataDir, localDay, instant);
    MergeAllAbsorbs(days, rs, localDay, instant);
    MergeAllFixed(d, rs, localDay, instant);
  }
}
