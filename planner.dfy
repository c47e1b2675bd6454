/** The install planner: one pass over the archive entries, in enumeration
    order, that collects the directories to create (an insertion-ordered
    set) and the files to write (a list). */
module Planner {
  import opened JsStrings
  import opened Guest

  /** One entry of the decoded archive, keyed by its archive-internal path. */
  datatype Entry = Entry(name: string, isDir: bool, content: Bytes)

  /** A file to write, at its full guest-side path. */
  datatype FileWrite = FileWrite(path: string, content: Bytes)

  datatype Plan = Plan(dirs: seq<string>, files: seq<FileWrite>)

  /** Where an entry goes: the target directory, a '/', the entry's path. */
  function FullPath(target: string, name: string): string {
    target + "/" + name
  }

  /** `path` cut at its last '/' (the empty text when it has none). */
  function DirName(path: string): (r: string)
    ensures |r| <= |path| && r == path[..|r|]
    ensures '/' in path ==> |r| < |path| && path[|r|] == '/' && '/' !in path[|r| + 1..]
    ensures '/' !in path ==> r == ""
  {
    Prefix(path, LastIndexOf(path, '/'))
  }

  /** A file entry's directory is the target followed by the entry's own
      directory part; only this immediate parent is planned. */
  lemma DirNameOfFullPath(target: string, name: string)
    ensures '/' !in name ==> DirName(FullPath(target, name)) == target
    ensures '/' in name ==> DirName(FullPath(target, name)) == target + "/" + DirName(name)
  {
    var full := FullPath(target, name);
    if '/' !in name {
      assert full[|target| + 1..] == name;
      LastIndexOfAt(full, '/', |target|);
      assert full[..|target|] == target;
    } else {
      var i := LastIndexOf(name, '/');
      var p := |target| + 1 + i;
      assert full[p] == name[i];
      assert full[p + 1..] == name[i + 1..];
      LastIndexOfAt(full, '/', p);
      assert full[..p] == target + "/" + name[..i];
    }
  }

  ghost predicate Distinct(s: seq<string>) {
    forall i, j | 0 <= i < j < |s| :: s[i] != s[j]
  }

  /** `Set.prototype.add` on an insertion-ordered set held as a sequence. */
  function AddDir(dirs: seq<string>, d: string): (r: seq<string>)
    ensures Distinct(dirs) ==> Distinct(r)
    ensures forall x :: x in r <==> x in dirs || x == d
    ensures d in dirs ==> r == dirs
    ensures d !in dirs ==> r == dirs + [d]
  {
    if d in dirs then dirs else dirs + [d]
  }

  /** One iteration of the planning loop. */
  function Step(p: Plan, e: Entry, target: string): Plan {
    var fullPath := FullPath(target, e.name);
    if e.isDir then Plan(AddDir(p.dirs, fullPath), p.files)
    else
      var dirName := DirName(fullPath);
      Plan(if dirName != "" then AddDir(p.dirs, dirName) else p.dirs,
           p.files + [FileWrite(fullPath, e.content)])
  }

  /** The plan for `entries`, built in enumeration order. */
  function PlanEntries(entries: seq<Entry>, target: string): (p: Plan)
    ensures Distinct(p.dirs)
    ensures |p.files| <= |entries|
    decreases |entries|
  {
    if entries == [] then Plan([], [])
    else Step(PlanEntries(entries[..|entries| - 1], target), entries[|entries| - 1], target)
  }

  /** The planning loop of `extractAndWriteZip`. */
  method CollectPlan(entries: seq<Entry>, target: string) returns (dirs: seq<string>, files: seq<FileWrite>)
    ensures Plan(dirs, files) == PlanEntries(entries, target)
  {
    dirs, files := [], [];
    for i := 0 to |entries|
      invariant Plan(dirs, files) == PlanEntries(entries[..i], target)
    {
      var e := entries[i];
      var fullPath := FullPath(target, e.name);
      if e.isDir {
        if fullPath !in dirs {
          dirs := dirs + [fullPath];
        }
      } else {
        var dirName := DirName(fullPath);
        if dirName != "" && dirName !in dirs {
          dirs := dirs + [dirName];
        }
        files := files + [FileWrite(fullPath, e.content)];
      }
      assert entries[..i + 1][..i] == entries[..i];
    }
    assert entries[..|entries|] == entries;
  }

  /** Directory `d` is one that entry `e` asks for: its own full path for a
      directory entry, the non-empty directory part of its full path for a
      file entry. */
  predicate Contributes(e: Entry, target: string, d: string) {
    if e.isDir then d == FullPath(target, e.name)
    else d == DirName(FullPath(target, e.name)) && d != ""
  }

  /** What one loop iteration does to the planned directories: it adds
      the one the entry contributes. */
  lemma StepDirs(p: Plan, e: Entry, target: string)
    ensures forall d :: d in Step(p, e, target).dirs <==> d in p.dirs || Contributes(e, target, d)
  {
  }

  /** What one loop iteration does to the planned writes: a file entry
      appends its write. */
  lemma StepFiles(p: Plan, e: Entry, target: string)
    ensures Step(p, e, target).files ==
      p.files + (if e.isDir then [] else [FileWrite(FullPath(target, e.name), e.content)])
  {
  }

  /** The planned directories are exactly those the entries ask for. */
  lemma {:induction false} PlanDirsExact(entries: seq<Entry>, target: string)
    ensures forall d :: d in PlanEntries(entries, target).dirs <==>
      exists i | 0 <= i < |entries| :: Contributes(entries[i], target, d)
    decreases |entries|
  {
    if entries != [] {
      var n := |entries| - 1;
      var init := entries[..n];
      var q := PlanEntries(init, target);
      PlanDirsExact(init, target);
      StepDirs(q, entries[n], target);
      forall d ensures d in PlanEntries(entries, target).dirs <==>
        exists i | 0 <= i < |entries| :: Contributes(entries[i], target, d)
      {
        if d in q.dirs {
          var i :| 0 <= i < |init| && Contributes(init[i], target, d);
          assert entries[i] == init[i];
        }
        if exists i | 0 <= i < |entries| :: Contributes(entries[i], target, d) {
          var i :| 0 <= i < |entries| && Contributes(entries[i], target, d);
          if i < n {
            assert init[i] == entries[i];
          }
        }
      }
    }
  }

  /** Every file's directory part, when not empty, is among the plan's
      directories. */
  ghost predicate CoversParents(p: Plan) {
    forall k | 0 <= k < |p.files| :: DirName(p.files[k].path) != "" ==> DirName(p.files[k].path) in p.dirs
  }

  lemma {:induction false} PlanCoversParents(entries: seq<Entry>, target: string)
    ensures CoversParents(PlanEntries(entries, target))
    decreases |entries|
  {
    if entries != [] {
      var n := |entries| - 1;
      var init := entries[..n];
      PlanCoversParents(init, target);
      var q := PlanEntries(init, target);
      var p := PlanEntries(entries, target);
      StepDirs(q, entries[n], target);
      StepFiles(q, entries[n], target);
      forall k | 0 <= k < |p.files| && DirName(p.files[k].path) != ""
        ensures DirName(p.files[k].path) in p.dirs
      {
        if k < |q.files| {
          assert p.files[k] == q.files[k];
          assert DirName(q.files[k].path) in q.dirs;
        } else {
          assert Contributes(entries[n], target, DirName(p.files[k].path));
        }
      }
    }
  }

  /** The file entries of an archive, in enumeration order. */
  function FileEntries(entries: seq<Entry>): (r: seq<Entry>)
    ensures forall k | 0 <= k < |r| :: !r[k].isDir
    ensures forall e :: e in r <==> e in entries && !e.isDir
    decreases |entries|
  {
    if entries == [] then []
    else
      var n := |entries| - 1;
      assert entries == entries[..n] + [entries[n]];
      FileEntries(entries[..n]) + (if entries[n].isDir then [] else [entries[n]])
  }

  /** The filter distributes over concatenation: the file entries stay in
      enumeration order, each kept as often as it occurs. */
  lemma {:induction false} FileEntriesAppend(a: seq<Entry>, b: seq<Entry>)
    ensures FileEntries(a + b) == FileEntries(a) + FileEntries(b)
    decreases |b|
  {
    if b == [] {
      assert a + b == a;
    } else {
      var n := |b| - 1;
      var init, e := b[..n], b[n];
      assert b == init + [e];
      assert a + b == (a + init) + [e];
      FileEntriesSnoc(a + init, e);
      FileEntriesSnoc(init, e);
      FileEntriesAppend(a, init);
    }
  }

  /** One more entry at the end adds itself when it is a file. */
  lemma FileEntriesSnoc(es: seq<Entry>, e: Entry)
    ensures FileEntries(es + [e]) == FileEntries(es) + (if e.isDir then [] else [e])
  {
    assert (es + [e])[..|es|] == es;
  }

  /** The filter on no entry and on one entry; with `FileEntriesAppend` this
      determines it on every archive. */
  lemma FileEntriesUnit(e: Entry)
    ensures FileEntries([]) == []
    ensures FileEntries([e]) == if e.isDir then [] else [e]
  {
  }

  /** Exactly one write per file entry, in enumeration order, to the
      entry's full path and with the entry's content. */
  lemma {:induction false} PlanFilesInOrder(entries: seq<Entry>, target: string)
    ensures var p := PlanEntries(entries, target); var fs := FileEntries(entries);
      && |p.files| == |fs|
      && forall k | 0 <= k < |fs| :: p.files[k] == FileWrite(FullPath(target, fs[k].name), fs[k].content)
    decreases |entries|
  {
    if entries != [] {
      var n := |entries| - 1;
      var init, e := entries[..n], entries[n];
      PlanFilesInOrder(init, target);
      var q := PlanEntries(init, target);
      StepFiles(q, e, target);
      var p, fs, gs := PlanEntries(entries, target), FileEntries(entries), FileEntries(init);
      assert fs == gs + (if e.isDir then [] else [e]);
      forall k | 0 <= k < |fs| ensures p.files[k] == FileWrite(FullPath(target, fs[k].name), fs[k].content) {
        if k < |gs| {
          assert fs[k] == gs[k] && p.files[k] == q.files[k];
        }
      }
    }
  }

  /** The write path on the mods device: the full path with the target
      stripped when it starts with it. */
  function DevicePath(path: string, target: string): string {
    if StartsWith(path, target) then path[|target|..] else path
  }

  /** The target prefix is always there, so a file lands at "/" followed by
      its archive-internal path, relative to the device root. */
  lemma DevicePathOfFullPath(target: string, name: string)
    ensures DevicePath(FullPath(target, name), target) == "/" + name
  {
    assert FullPath(target, name)[..|target|] == target;
  }
}
