/** The content store as the scripts see it through `fs` and `glob`: a tree of
    directories and parsed JSON files, and the flat file lists a glob returns. */
module FileTree {
  import opened LikeTypes
  import opened Text
  import opened Seqs

  /** A directory entry. A directory that cannot be listed has `readable` false. */
  datatype Entry =
    | File(name: string, content: Content)
    | Dir(name: string, children: seq<Entry>, readable: bool)

  /** `fs.readdirSync(p)` (entries in listing order), or `None` when it throws:
      `p` is a file or cannot be listed. */
  function Readdir(e: Entry): Option<seq<Entry>> {
    if e.Dir? && e.readable then Some(e.children) else None
  }

  /** `JSON.parse(fs.readFileSync(p, 'utf-8'))`; reading a directory throws. */
  function ReadJson(e: Entry): Content {
    if e.File? then e.content else Unparseable
  }

  /** Comparator of `names.sort()`: by name in code-unit order. */
  predicate ByName(a: Entry, b: Entry) {
    StrLe(a.name, b.name)
  }

  /** `name.endsWith('.json')` on an entry. */
  predicate IsJsonEntry(e: Entry) {
    EndsWith(e.name, ".json")
  }

  /** One file found by a glob: its path relative to the glob's root, as
      segments, its parsed content and its modification time. */
  datatype StoreFile = StoreFile(path: seq<string>, content: Content, mtime: int)

  function Basename(f: StoreFile): string {
    if f.path == [] then "" else f.path[|f.path| - 1]
  }

  /** The basename pattern `[0-9][0-9].json`. */
  predicate IsDayFileName(n: string) {
    |n| == 7 && IsDigit(n[0]) && IsDigit(n[1]) && n[2..] == ".json"
  }

  /** `glob.sync('<root>/**/[0-9][0-9].json')` over the files under the root. */
  function GlobDayFiles(files: seq<StoreFile>): (r: seq<StoreFile>)
    ensures |r| <= |files|
  {
    Filter(files, IsDayFile)
  }

  predicate IsDayFile(f: StoreFile) {
    IsDayFileName(Basename(f))
  }

  /** `name.replace('.json', '')` on a day file name leaves its two digits. */
  lemma DayFileStem(n: string)
    requires IsDayFileName(n)
    ensures ReplaceFirst(n, ".json", "") == n[..2]
  {
    assert n[2..] == ".json";
    forall j | 0 <= j < |n| - 5 ensures !OccursAt(n, ".json", j) {
      assert n[j] != '.';
    }
    ReplaceFirstSuffix(n, ".json");
  }

  lemma GlobDayFilesMembers(files: seq<StoreFile>)
    ensures forall f :: f in GlobDayFiles(files) <==> f in files && IsDayFileName(Basename(f))
  {
    FilterMembers(files, IsDayFile);
  }

  /** The values `f` gives for the elements in order, skipping those it
      gives `None` for: a loop whose body pushes at most one value and may
      skip an element. */
  function Collect<S, T>(s: seq<S>, f: S -> Option<T>): (r: seq<T>)
    ensures |r| <= |s|
    decreases |s|
  {
    if s == [] then []
    else Collect(s[..|s| - 1], f) + (if f(s[|s| - 1]).Some? then [f(s[|s| - 1]).value] else [])
  }

  /** A value is collected exactly when some element gives it. */
  lemma {:induction false} CollectMembers<S, T>(s: seq<S>, f: S -> Option<T>, x: T)
    ensures x in Collect(s, f) <==> exists y :: y in s && f(y) == Some(x)
    decreases |s|
  {
    if s != [] {
      var s' := s[..|s| - 1];
      CollectMembers(s', f, x);
      assert s == s' + [s[|s| - 1]];
      if exists y :: y in s && f(y) == Some(x) {
        var y :| y in s && f(y) == Some(x);
        if y != s[|s| - 1] {
          assert y in s';
        }
      }
    }
  }

  /** One more element extends the collected values by what it gives. */
  lemma CollectStep<S, T>(s: seq<S>, i: nat, f: S -> Option<T>)
    requires i < |s|
    ensures Collect(s[..i + 1], f) == Collect(s[..i], f) + (if f(s[i]).Some? then [f(s[i]).value] else [])
  {
    assert s[..i + 1][..i] == s[..i];
  }

  /** Combining two steps of a scan that aborts on the first failure. */
  function Then<T>(a: Option<seq<T>>, b: Option<seq<T>>): Option<seq<T>> {
    if a.Some? && b.Some? then Some(a.value + b.value) else None
  }

  /** Running `f` over every element in order and concatenating the results;
      `None` as soon as one step fails (an exception that ends the run). */
  function CollectAll<S, T>(s: seq<S>, f: S -> Option<seq<T>>): Option<seq<T>>
    decreases |s|
  {
    if s == [] then Some([])
    else Then(CollectAll(s[..|s| - 1], f), f(s[|s| - 1]))
  }

  /** A failure in a prefix is a failure of the whole scan. */
  lemma {:induction false} CollectAllNone<S, T>(s: seq<S>, i: nat, f: S -> Option<seq<T>>)
    requires i <= |s|
    requires CollectAll(s[..i], f).None?
    ensures CollectAll(s, f).None?
    decreases |s| - i
  {
    if i < |s| {
      assert s[..i + 1][..i] == s[..i];
      CollectAllNone(s, i + 1, f);
    } else {
      assert s[..i] == s;
    }
  }

  /** A failing step after a successful prefix fails the whole scan. */
  lemma CollectAllStop<S, T>(s: seq<S>, i: nat, f: S -> Option<seq<T>>)
    requires i < |s| && CollectAll(s[..i], f).Some? && f(s[i]).None?
    ensures CollectAll(s, f).None?
  {
    assert s[..i + 1][..i] == s[..i];
    CollectAllNone(s, i + 1, f);
  }

  /** The scan fails exactly when one of its steps fails. */
  lemma {:induction false} CollectAllFails<S, T>(s: seq<S>, f: S -> Option<seq<T>>)
    ensures CollectAll(s, f).None? <==> exists i :: 0 <= i < |s| && f(s[i]).None?
    decreases |s|
  {
    if s != [] {
      var s' := s[..|s| - 1];
      CollectAllFails(s', f);
      if CollectAll(s', f).None? {
        var i :| 0 <= i < |s'| && f(s'[i]).None?;
        assert s[i] == s'[i];
      }
      if exists i :: 0 <= i < |s| && f(s[i]).None? {
        var i :| 0 <= i < |s| && f(s[i]).None?;
        if i < |s'| {
          assert s'[i] == s[i];
        }
      }
    }
  }

  /** One more successful step extends a successful scan by its writes. */
  lemma CollectAllStep<S, T>(s: seq<S>, i: nat, f: S -> Option<seq<T>>, log: seq<T>, w: seq<T>)
    requires i < |s|
    requires CollectAll(s[..i], f) == Some(log) && f(s[i]) == Some(w)
    ensures CollectAll(s[..i + 1], f) == Some(log + w)
  {
    assert s[..i + 1][..i] == s[..i];
  }

  /** Every step of a successful scan succeeded and contributed its writes, in order. */
  lemma {:induction false} CollectAllMembers<S, T>(s: seq<S>, f: S -> Option<seq<T>>, x: T)
    requires CollectAll(s, f).Some?
    ensures forall i :: 0 <= i < |s| ==> f(s[i]).Some?
    ensures x in CollectAll(s, f).value <==> exists i :: 0 <= i < |s| && x in f(s[i]).value
    decreases |s|
  {
    CollectAllFails(s, f);
    if s != [] {
      var s' := s[..|s| - 1];
      CollectAllMembers(s', f, x);
      if exists i :: 0 <= i < |s| && x in f(s[i]).value {
        var i :| 0 <= i < |s| && x in f(s[i]).value;
        if i < |s'| {
          assert s'[i] == s[i];
        }
      }
      if x in CollectAll(s', f).value {
        var i :| 0 <= i < |s'| && x in f(s'[i]).value;
        assert s[i] == s'[i];
      }
    }
  }

  /** `CollectAllMembers` stated over the elements rather than their indices. */
  lemma CollectAllElements<S, T>(s: seq<S>, f: S -> Option<seq<T>>, x: T)
    requires CollectAll(s, f).Some?
    ensures forall e :: e in s ==> f(e).Some?
    ensures x in CollectAll(s, f).value <==> exists e :: e in s && x in f(e).value
  {
    CollectAllMembers(s, f, x);
    forall e | e in s ensures f(e).Some? {
      var i :| 0 <= i < |s| && s[i] == e;
    }
    if exists e :: e in s && x in f(e).value {
      var e :| e in s && x in f(e).value;
      var i :| 0 <= i < |s| && s[i] == e;
    }
  }
}
