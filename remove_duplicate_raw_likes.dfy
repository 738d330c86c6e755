/** Removal of duplicate raw like files (src/scripts/remove-duplicate-raw-likes.ts):
    the tweet ID of a raw record is read off its URL, and of several files with
    the same ID the first one seen is kept and the others are deleted. */
module RawDedup {
  import opened LikeTypes
  import opened Text
  import opened Seqs
  import opened FileTree

  /** Number of digits of `s` starting at `j`. */
  function DigitRun(s: string, j: nat): (n: nat)
    requires j <= |s|
    ensures j + n <= |s|
    ensures forall k :: j <= k < j + n ==> IsDigit(s[k])
    ensures j + n == |s| || !IsDigit(s[j + n])
    decreases |s| - j
  {
    if j < |s| && IsDigit(s[j]) then 1 + DigitRun(s, j + 1) else 0
  }

  /** The pattern `\/status\/\d` matches at index `i`. */
  predicate StatusAt(u: string, i: int) {
    OccursAt(u, "/status/", i) && i + 8 < |u| && IsDigit(u[i + 8])
  }

  /** The digits the group `(\d+)` captures for a match at index `i`. */
  function Captured(u: string, i: nat): string
    requires StatusAt(u, i)
  {
    u[i + 8..i + 8 + DigitRun(u, i + 8)]
  }

  /** The regular-expression search from index `from` on. */
  function MatchFrom(u: string, from: nat): Option<string>
    requires from <= |u|
    decreases |u| - from
  {
    if StatusAt(u, from) then Some(Captured(u, from))
    else if from == |u| then None
    else MatchFrom(u, from + 1)
  }

  /** `extractTweetId(url)`: the digits captured by `/\/status\/(\d+)/`, or null. */
  function ExtractTweetId(u: string): Option<string> {
    MatchFrom(u, 0)
  }

  lemma {:induction false} MatchFromSpec(u: string, from: nat) returns (i: int)
    requires from <= |u|
    ensures MatchFrom(u, from).None? <==> forall j :: from <= j <= |u| ==> !StatusAt(u, j)
    ensures MatchFrom(u, from).Some? ==>
              from <= i && StatusAt(u, i)
              && (forall j :: from <= j < i ==> !StatusAt(u, j))
              && MatchFrom(u, from).value == Captured(u, i)
    decreases |u| - from
  {
    MatchFromNone(u, from);
    i := from;
    if MatchFrom(u, from).Some? {
      i := MatchFromSome(u, from);
    }
  }

  lemma {:induction false} MatchFromNone(u: string, from: nat)
    requires from <= |u|
    ensures MatchFrom(u, from).None? <==> forall j :: from <= j <= |u| ==> !StatusAt(u, j)
    decreases |u| - from
  {
    if !StatusAt(u, from) && from < |u| {
      MatchFromNone(u, from + 1);
    }
  }

  lemma {:induction false} MatchFromSome(u: string, from: nat) returns (i: int)
    requires from <= |u| && MatchFrom(u, from).Some?
    ensures from <= i && StatusAt(u, i)
    ensures forall j :: from <= j < i ==> !StatusAt(u, j)
    ensures MatchFrom(u, from).value == Captured(u, i)
    decreases |u| - from
  {
    if StatusAt(u, from) {
      i := from;
    } else {
      i := MatchFromSome(u, from + 1);
    }
  }

  /** The ID is the whole digit run after the leftmost `/status/` that is
      followed by a digit; there is none exactly when no `/status/` is followed
      by a digit. */
  lemma ExtractTweetIdSpec(u: string) returns (i: int)
    ensures ExtractTweetId(u).None? <==> forall j :: 0 <= j <= |u| ==> !StatusAt(u, j)
    ensures ExtractTweetId(u).Some? ==>
              var id := ExtractTweetId(u).value;
              && StatusAt(u, i) && (forall j :: 0 <= j < i ==> !StatusAt(u, j))
              && |id| > 0 && AllDigits(id)
              && OccursAt(u, "/status/" + id, i)
              && (i + 8 + |id| == |u| || !IsDigit(u[i + 8 + |id|]))
  {
    i := MatchFromSpec(u, 0);
    if ExtractTweetId(u).Some? {
      CapturedSpec(u, i);
    }
  }

  /** A capture is a non-empty digit run that follows the `/status/` at `i`
      and ends where the digits end. */
  lemma CapturedSpec(u: string, i: nat)
    requires StatusAt(u, i)
    ensures var id := Captured(u, i);
            && |id| > 0 && AllDigits(id)
            && OccursAt(u, "/status/" + id, i)
            && (i + 8 + |id| == |u| || !IsDigit(u[i + 8 + |id|]))
  {
    var id := Captured(u, i);
    var n := DigitRun(u, i + 8);
    assert |id| == n;
    assert u[i..i + 8] == "/status/";
    assert u[i..i + 8 + n] == u[i..i + 8] + id;
    forall k | 0 <= k < n ensures IsDigit(id[k]) {
      assert id[k] == u[i + 8 + k];
    }
  }

  /** A single case of the pattern: the query string after the ID is not part of it. */
  lemma ExtractTweetIdExample()
    ensures ExtractTweetId("/u/status/42?s=1") == Some("42")
  {
    var u := "/u/status/42?s=1";
    assert !StatusAt(u, 0) by { assert u[1] != "/status/"[1]; }
    assert !StatusAt(u, 1) by { assert u[1] != "/status/"[0]; }
    assert StatusAt(u, 2) by { assert u[2..10] == "/status/"; }
    assert !IsDigit(u[12]);
    assert DigitRun(u, 10) == 2;
    assert u[10..12] == "42";
  }

  /** The tweet ID of a `.json` entry of a month directory, or `None` when the
      file cannot be read or parsed, is not a like record (reading
      `tweet.tweet_url.match` then throws inside the `try`), or its URL holds no ID. */
  function IdOf(e: Entry): Option<string> {
    var c := ReadJson(e);
    if c.LikeObject? then ExtractTweetId(c.like.tweet_url) else None
  }

  /** One `.json` file of the scan, with the month directory it lies in. */
  datatype RawFile = RawFile(dir: string, entry: Entry)

  datatype RawPath = RawPath(dir: string, name: string)

  function PathOf(f: RawFile): RawPath { RawPath(f.dir, f.entry.name) }

  /** `seenTweetIds`, the files unlinked so far, `totalFiles` and `duplicatesRemoved`. */
  datatype Tally = Tally(seen: set<string>, deleted: seq<RawPath>, total: nat, removed: nat)

  const Start := Tally({}, [], 0, 0)

  /** One iteration of the inner loop. */
  function Visit(t: Tally, f: RawFile): Tally {
    var t' := t.(total := t.total + 1);
    var id := IdOf(f.entry);
    if id.None? then t'
    else if id.value in t.seen then t'.(deleted := t.deleted + [PathOf(f)], removed := t.removed + 1)
    else t'.(seen := t.seen + {id.value})
  }

  /** The tally after visiting `fs` in order. */
  function Tallied(fs: seq<RawFile>): Tally
    decreases |fs|
  {
    if fs == [] then Start else Visit(Tallied(fs[..|fs| - 1]), fs[|fs| - 1])
  }

  function InDir(dir: string, es: seq<Entry>): (r: seq<RawFile>)
    ensures |r| == |es|
    ensures forall k :: 0 <= k < |es| ==> r[k] == RawFile(dir, es[k])
  {
    seq(|es|, k requires 0 <= k < |es| => RawFile(dir, es[k]))
  }

  /** `readdirSync(LIKES_DIR).filter(dir => statSync(dir).isDirectory())` */
  function MonthDirs(ls: seq<Entry>): seq<Entry> {
    Filter(ls, (e: Entry) => e.Dir?)
  }

  /** The `.json` files of one month directory, or `None` when listing it throws. */
  function MonthFiles(m: Entry): Option<seq<RawFile>> {
    var ls := Readdir(m);
    if ls.None? then None else Some(InDir(m.name, Filter(ls.value, IsJsonEntry)))
  }

  /** The files visited over the month directories `ms`, and whether every
      listing succeeded (a failing `readdirSync` ends the run). */
  function Listing(ms: seq<Entry>): (seq<RawFile>, bool)
    decreases |ms|
  {
    if ms == [] then ([], true)
    else
      var (fs, ok) := Listing(ms[..|ms| - 1]);
      var next := MonthFiles(ms[|ms| - 1]);
      if !ok || next.None? then (fs, false) else (fs + next.value, true)
  }

  /** `processDirectory` from the likes directory (`None` when it does not exist):
      the files it visits and whether it ran to the end. */
  function RunListing(root: Option<Entry>): (seq<RawFile>, bool) {
    if root.None? then ([], true)
    else if Readdir(root.value).None? then ([], false)
    else Listing(MonthDirs(Readdir(root.value).value))
  }

  /** `processDirectory`: the final tally, and `false` when a listing threw. */
  method ProcessDirectory(root: Option<Entry>) returns (t: Tally, completed: bool)
    ensures t == Tallied(RunListing(root).0) && completed == RunListing(root).1
  {
    if root.None? {
      return Start, true;
    }
    var ls := Readdir(root.value);
    if ls.None? {
      return Start, false;
    }
    var ms := MonthDirs(ls.value);
    t := Start;
    ghost var done: seq<RawFile> := [];
    var i := 0;
    while i < |ms|
      invariant 0 <= i <= |ms|
      invariant Listing(ms[..i]) == (done, true)
      invariant t == Tallied(done)
    {
      ListingStep(ms, i, done);
      var entries := Readdir(ms[i]);
      if entries.None? {
        return t, false;
      }
      var files := Filter(entries.value, IsJsonEntry);
      t := VisitFiles(t, done, ms[i].name, files);
      done := done + InDir(ms[i].name, files);
      i := i + 1;
    }
    assert ms[..i] == ms;
    return t, true;
  }

  /** The inner `for (const file of files)` loop of one month directory. */
  method VisitFiles(t0: Tally, ghost before: seq<RawFile>, dir: string, files: seq<Entry>) returns (t: Tally)
    requires t0 == Tallied(before)
    ensures t == Tallied(before + InDir(dir, files))
  {
    t := t0;
    ghost var acc := before;
    var j := 0;
    while j < |files|
      invariant 0 <= j <= |files|
      invariant acc == before + InDir(dir, files[..j])
      invariant t == Tallied(acc)
    {
      assert InDir(dir, files[..j + 1]) == InDir(dir, files[..j]) + [RawFile(dir, files[j])];
      TalliedSnoc(acc, RawFile(dir, files[j]));
      t := Visit(t, RawFile(dir, files[j]));
      acc := acc + [RawFile(dir, files[j])];
      j := j + 1;
    }
    assert files[..j] == files;
  }

  lemma TalliedSnoc(fs: seq<RawFile>, x: RawFile)
    ensures Tallied(fs + [x]) == Visit(Tallied(fs), x)
  {
    assert (fs + [x])[..|fs|] == fs;
  }

  /** One month directory more: the run stops at a listing that throws and
      otherwise adds that directory's files. */
  lemma ListingStep(ms: seq<Entry>, i: nat, done: seq<RawFile>)
    requires i < |ms| && Listing(ms[..i]) == (done, true)
    ensures MonthFiles(ms[i]).None? ==> Listing(ms) == (done, false)
    ensures MonthFiles(ms[i]).Some? ==> Listing(ms[..i + 1]) == (done + MonthFiles(ms[i]).value, true)
  {
    assert ms[..i + 1][..i] == ms[..i];
    if MonthFiles(ms[i]).None? {
      ListingStops(ms, i + 1);
    }
  }

  /** A failed listing ends the scan: the later directories add nothing. */
  lemma {:induction false} ListingStops(ms: seq<Entry>, i: nat)
    requires i <= |ms|
    requires !Listing(ms[..i]).1
    ensures Listing(ms) == Listing(ms[..i])
    decreases |ms| - i
  {
    if i < |ms| {
      assert ms[..i + 1][..i] == ms[..i];
      ListingStops(ms, i + 1);
    } else {
      assert ms[..i] == ms;
    }
  }

  /** The file at `k` has an ID that an earlier file already had. */
  ghost predicate LaterCopy(fs: seq<RawFile>, k: int)
    requires 0 <= k < |fs|
  {
    IdOf(fs[k].entry).Some? && exists j :: 0 <= j < k && IdOf(fs[j].entry) == IdOf(fs[k].entry)
  }

  /** The paths of the later copies, in scan order. */
  ghost function LaterCopies(fs: seq<RawFile>): seq<RawPath>
    decreases |fs|
  {
    if fs == [] then []
    else LaterCopies(fs[..|fs| - 1]) + (if LaterCopy(fs, |fs| - 1) then [PathOf(fs[|fs| - 1])] else [])
  }

  /** After visiting `fs` the seen set holds exactly the IDs of the files visited. */
  lemma {:induction false} TalliedSeen(fs: seq<RawFile>, id: string)
    ensures id in Tallied(fs).seen <==> exists k :: 0 <= k < |fs| && IdOf(fs[k].entry) == Some(id)
    decreases |fs|
  {
    if fs != [] {
      var p := fs[..|fs| - 1];
      TalliedSeen(p, id);
      var last := IdOf(fs[|fs| - 1].entry);
      assert Tallied(fs).seen == Tallied(p).seen + (if last.Some? then {last.value} else {});
      if exists k :: 0 <= k < |fs| && IdOf(fs[k].entry) == Some(id) {
        var k :| 0 <= k < |fs| && IdOf(fs[k].entry) == Some(id);
        if k < |p| {
          assert p[k] == fs[k];
        }
      }
      if exists k :: 0 <= k < |p| && IdOf(p[k].entry) == Some(id) {
        var k :| 0 <= k < |p| && IdOf(p[k].entry) == Some(id);
        assert fs[k] == p[k];
      }
    }
  }

  /** The files deleted are exactly the later copies, in scan order: the first
      file for every ID is kept, and a file without an ID is never deleted. */
  lemma {:induction false} TalliedDeleted(fs: seq<RawFile>)
    ensures Tallied(fs).deleted == LaterCopies(fs)
    decreases |fs|
  {
    if fs != [] {
      var n := |fs| - 1;
      var p := fs[..n];
      TalliedDeleted(p);
      if IdOf(fs[n].entry).Some? {
        var xid := IdOf(fs[n].entry).value;
        TalliedSeen(p, xid);
        if xid in Tallied(p).seen {
          var k :| 0 <= k < |p| && IdOf(p[k].entry) == Some(xid);
          assert fs[k] == p[k];
          assert LaterCopy(fs, n);
        } else {
          forall j | 0 <= j < n ensures IdOf(fs[j].entry) != IdOf(fs[n].entry) {
            assert fs[j] == p[j];
          }
          assert !LaterCopy(fs, n);
        }
      }
    }
  }

  /** Every file is counted, every deletion is counted once, and
      `duplicatesRemoved + seenTweetIds.size` never exceeds `totalFiles`. */
  lemma {:induction false} TalliedCounts(fs: seq<RawFile>)
    ensures Tallied(fs).total == |fs|
    ensures Tallied(fs).removed == |Tallied(fs).deleted|
    ensures Tallied(fs).removed + |Tallied(fs).seen| <= Tallied(fs).total
    decreases |fs|
  {
    if fs != [] {
      var p := fs[..|fs| - 1];
      TalliedCounts(p);
      var t := Tallied(p);
      var id := IdOf(fs[|fs| - 1].entry);
      if id.Some? && id.value !in t.seen {
        assert |t.seen + {id.value}| == |t.seen| + 1;
      }
    }
  }

  /** The files visited are the `.json` entries of the month directories, in
      listing order, up to the first directory that cannot be listed. */
  lemma {:induction false} ListingMembers(ms: seq<Entry>, f: RawFile)
    ensures f in Listing(ms).0 ==>
              exists i :: 0 <= i < |ms| && MonthFiles(ms[i]).Some? && f in MonthFiles(ms[i]).value
    decreases |ms|
  {
    if ms != [] {
      var p := ms[..|ms| - 1];
      ListingMembers(p, f);
      if f in Listing(p).0 {
        var i :| 0 <= i < |p| && MonthFiles(p[i]).Some? && f in MonthFiles(p[i]).value;
        assert ms[i] == p[i];
      }
    }
  }

  /** Every visited file is a `.json` entry of a directory of the likes directory. */
  lemma RunListingMembers(root: Option<Entry>, f: RawFile)
    requires f in RunListing(root).0
    ensures root.Some? && Readdir(root.value).Some?
    ensures EndsWith(f.entry.name, ".json")
    ensures exists m :: m in Readdir(root.value).value && m.Dir? && m.name == f.dir && f.entry in m.children
  {
    var ms := MonthDirs(Readdir(root.value).value);
    ListingMembers(ms, f);
    var i :| 0 <= i < |ms| && MonthFiles(ms[i]).Some? && f in MonthFiles(ms[i]).value;
    var m := ms[i];
    FilterMembers(Readdir(root.value).value, (e: Entry) => e.Dir?);
    assert m in ms;
    var fs := Filter(Readdir(m).value, IsJsonEntry);
    FilterMembers(Readdir(m).value, IsJsonEntry);
    var k :| 0 <= k < |fs| && InDir(m.name, fs)[k] == f;
    assert fs[k] in fs;
  }
}
