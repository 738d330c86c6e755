/** The date list behind the calendar picker of the root layout
    (src/app/layout.tsx): every `.json` file found below the content
    directory gives the date its relative path names, and the dates are
    sorted newest first. */
module RootLayout {
  import opened LikeTypes
  import opened Text
  import opened Seqs
  import opened FileTree

  /** The relative paths `ps` found in a subdirectory, as seen from its parent. */
  function Under(name: string, ps: seq<seq<string>>): (r: seq<seq<string>>)
    ensures |r| == |ps|
    ensures forall i :: 0 <= i < |ps| ==> r[i] == [name] + ps[i]
  {
    seq(|ps|, i requires 0 <= i < |ps| => [name] + ps[i])
  }

  /** What one entry adds to `jsonFiles`: the files found below a
      directory, or the file itself when its name ends with `.json`. */
  function ChildFiles(c: Entry): Option<seq<seq<string>>>
    decreases c, 3
  {
    if c.Dir? then
      var nested := JsonFiles(c);
      if nested.None? then None else Some(Under(c.name, nested.value))
    else if IsJsonEntry(c) then Some([[c.name]])
    else Some([])
  }

  /** `findJsonFiles`: the relative paths, as segments, of the `.json`
      files below a directory; `None` when listing it or a directory below
      it throws. */
  function JsonFiles(e: Entry): Option<seq<seq<string>>>
    decreases e, 2
  {
    if Readdir(e).None? then None else FilesIn(e, |e.children|)
  }

  /** The files contributed by the first `n` entries of a directory. */
  function FilesIn(e: Entry, n: nat): Option<seq<seq<string>>>
    requires e.Dir? && n <= |e.children|
    decreases e, 1, n
  {
    if n == 0 then Some([]) else Then(FilesIn(e, n - 1), ChildFiles(e.children[n - 1]))
  }

  /** `findJsonFiles`: each entry of the listing is visited in turn; a
      directory is searched recursively and its files pushed. */
  method FindJsonFiles(dir: Entry) returns (r: Option<seq<seq<string>>>)
    ensures r == JsonFiles(dir)
    decreases dir
  {
    var files := Readdir(dir);
    if files.None? {
      return None;
    }
    var jsonFiles: seq<seq<string>> := [];
    for i := 0 to |files.value|
      invariant FilesIn(dir, i) == Some(jsonFiles)
    {
      var file := files.value[i];
      if file.Dir? {
        var nestedFiles := FindJsonFiles(file);
        if nestedFiles.None? {
          FilesInNone(dir, i + 1, |dir.children|);
          return None;
        }
        jsonFiles := jsonFiles + Under(file.name, nestedFiles.value);
      } else if EndsWith(file.name, ".json") {
        jsonFiles := jsonFiles + [[file.name]];
      } else {
        assert jsonFiles + [] == jsonFiles;
      }
    }
    return Some(jsonFiles);
  }

  lemma {:induction false} FilesInNone(e: Entry, i: nat, n: nat)
    requires e.Dir? && i <= n <= |e.children|
    requires FilesIn(e, i).None?
    ensures FilesIn(e, n).None?
    decreases n - i
  {
    if i < n {
      FilesInNone(e, i + 1, n);
    }
  }

  /** A `.json` file at relative path `p` below directory `e`, reached
      through directories that can be listed. */
  ghost predicate JsonAt(e: Entry, p: seq<string>)
    decreases e
  {
    && e.Dir?
    && exists c :: c in e.children && (
         || (!c.Dir? && IsJsonEntry(c) && p == [c.name])
         || (c.Dir? && |p| >= 2 && p[0] == c.name && JsonAt(c, p[1..])))
  }

  /** The files of the first `n` entries are those of each of them, and
      each of them was searched without a failure. */
  lemma {:induction false} FilesInMembers(e: Entry, n: nat, p: seq<string>)
    requires e.Dir? && n <= |e.children| && FilesIn(e, n).Some?
    ensures forall k :: 0 <= k < n ==> ChildFiles(e.children[k]).Some?
    ensures p in FilesIn(e, n).value <==> exists k :: 0 <= k < n && p in ChildFiles(e.children[k]).value
    decreases n
  {
    if n > 0 {
      FilesInMembers(e, n - 1, p);
    }
  }

  /** Every path `findJsonFiles` returns leads to a `.json` file. */
  lemma {:induction false} JsonFilesFound(e: Entry, p: seq<string>)
    requires JsonFiles(e).Some? && p in JsonFiles(e).value
    ensures JsonAt(e, p)
    decreases e
  {
    FilesInMembers(e, |e.children|, p);
    var k :| 0 <= k < |e.children| && p in ChildFiles(e.children[k]).value;
    var c := e.children[k];
    if c.Dir? {
      var q :| q in JsonFiles(c).value && p == [c.name] + q;
      assert p[1..] == q;
      JsonFilesFound(c, q);
    }
  }

  /** Every `.json` file below the directory is among the paths returned. */
  lemma {:induction false} JsonFilesComplete(e: Entry, p: seq<string>)
    requires JsonFiles(e).Some? && JsonAt(e, p)
    ensures p in JsonFiles(e).value
    decreases e
  {
    FilesInMembers(e, |e.children|, p);
    var c :| c in e.children &&
      ((!c.Dir? && IsJsonEntry(c) && p == [c.name]) ||
       (c.Dir? && |p| >= 2 && p[0] == c.name && JsonAt(c, p[1..])));
    var k :| 0 <= k < |e.children| && e.children[k] == c;
    if c.Dir? {
      JsonFilesComplete(c, p[1..]);
      var i :| 0 <= i < |JsonFiles(c).value| && JsonFiles(c).value[i] == p[1..];
      assert Under(c.name, JsonFiles(c).value)[i] == p;
    }
  }

  /** With every directory readable, `findJsonFiles` finds exactly the
      `.json` files below the directory. */
  lemma JsonFilesSpec(e: Entry, p: seq<string>)
    requires JsonFiles(e).Some?
    ensures p in JsonFiles(e).value <==> JsonAt(e, p)
  {
    if p in JsonFiles(e).value {
      JsonFilesFound(e, p);
    }
    if JsonAt(e, p) {
      JsonFilesComplete(e, p);
    }
  }

  /** The `DateInfo` a relative path maps to, or `null` with fewer than
      three segments: year and month are the first two, the day the third up
      to its first `.`. */
  function PathDate(p: seq<string>): Option<DateInfo> {
    if |p| < 3 then None else Some(DateInfo(p[0], p[1], Split(p[2], '.')[0]))
  }

  function PathCollector(): seq<string> -> Option<DateInfo> {
    p => PathDate(p)
  }

  /** The string `${year}${month}${day}` the sort compares. */
  function DateKey(d: DateInfo): string {
    d.year + d.month + d.day
  }

  /** Comparator `dateB.localeCompare(dateA)`. */
  predicate NewerKeyFirst(a: DateInfo, b: DateInfo) {
    StrLe(DateKey(b), DateKey(a))
  }

  /** `getAllDates` of the layout; any failure to list a directory is caught
      and gives the empty list. */
  method GetAllDates(root: Entry) returns (dates: seq<DateInfo>)
    ensures JsonFiles(root).None? ==> dates == []
    ensures JsonFiles(root).Some? ==> dates == SortBy(Collect(JsonFiles(root).value, PathCollector()), NewerKeyFirst)
  {
    var jsonFiles := FindJsonFiles(root);
    if jsonFiles.None? {
      return [];
    }
    var mapped := Collect(jsonFiles.value, PathCollector());
    dates := SortBy(mapped, NewerKeyFirst);
  }

  /** A path with fewer than three segments gives no date; otherwise the
      day is the longest prefix of the third segment without a `.`. */
  lemma PathDateSpec(p: seq<string>)
    ensures PathDate(p).None? <==> |p| < 3
    ensures PathDate(p).Some? ==>
              var d := PathDate(p).value;
              && d.year == p[0] && d.month == p[1]
              && d.day == p[2][..|d.day|] && '.' !in d.day
              && (|d.day| == |p[2]| || p[2][|d.day|] == '.')
  {
    if |p| >= 3 {
      SplitHead(p[2], '.');
    }
  }

  /** For a day file `dd.json` the day is `dd`. */
  lemma DayFileDate(p: seq<string>)
    requires |p| >= 3 && IsDayFileName(p[2])
    ensures PathDate(p).value.day == p[2][..2]
  {
    var n := p[2];
    SplitHead(n, '.');
    assert n[2] == '.';
  }

  /** The listed dates are sorted newest key first and are exactly the
      dates of the `.json` files with at least three path segments below
      the content directory, each once per file. */
  lemma GetAllDatesSpec(root: Entry, x: DateInfo)
    requires JsonFiles(root).Some?
    ensures var dates := SortBy(Collect(JsonFiles(root).value, PathCollector()), NewerKeyFirst);
            && SortedBy(dates, NewerKeyFirst)
            && multiset(dates) == multiset(Collect(JsonFiles(root).value, PathCollector()))
            && (x in dates <==> exists p :: JsonAt(root, p) && |p| >= 3 && x == PathDate(p).value)
  {
    var paths := JsonFiles(root).value;
    var mapped := Collect(paths, PathCollector());
    KeyOrderTotal(NewerKeyFirst, DateKey, true);
    SortBySorted(mapped, NewerKeyFirst);
    SortByPerm(mapped, NewerKeyFirst);
    CollectMembers(paths, PathCollector(), x);
    assert x in SortBy(mapped, NewerKeyFirst) <==> x in multiset(mapped);
    if exists p :: p in paths && PathDate(p) == Some(x) {
      var p :| p in paths && PathDate(p) == Some(x);
      JsonFilesSpec(root, p);
    }
    if exists p :: JsonAt(root, p) && |p| >= 3 && x == PathDate(p).value {
      var p :| JsonAt(root, p) && |p| >= 3 && x == PathDate(p).value;
      JsonFilesSpec(root, p);
    }
  }
}
