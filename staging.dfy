/** Carrying out a plan: the directories one `mkdir -p` at a time, each
    awaited, then every file write issued at once and joined. The calls
    made and whether the whole staging succeeded are given as functions of
    the plan and of which calls the runtime lets succeed. */
module Staging {
  import opened Guest
  import opened Planner

  /** The `mkdir -p` argument for a planned directory: the mount point of
      the mods device followed by the directory. */
  function MkdirArg(dir: string): string {
    "/mods" + dir
  }

  /** One `mkdir -p` per planned directory, in insertion order. */
  function MkdirsOf(dirs: seq<string>): (cs: seq<Call>)
    ensures |cs| == |dirs|
  {
    seq(|dirs|, k requires 0 <= k < |dirs| => Mkdir(MkdirArg(dirs[k])))
  }

  /** The index of the first call that fails, or `|cs|` when all succeed. */
  function FirstFailure(cs: seq<Call>, succeeds: Call -> bool): (n: nat)
    ensures n <= |cs|
    ensures forall k | 0 <= k < n :: succeeds(cs[k])
    ensures n < |cs| ==> !succeeds(cs[n])
  {
    if cs == [] then 0
    else if !succeeds(cs[0]) then 0
    else 1 + FirstFailure(cs[1..], succeeds)
  }

  /** The first failure is at `i` when every call before it succeeds and it
      does not. */
  lemma FirstFailureAt(cs: seq<Call>, succeeds: Call -> bool, i: nat)
    requires i < |cs| && !succeeds(cs[i])
    requires forall k | 0 <= k < i :: succeeds(cs[k])
    ensures FirstFailure(cs, succeeds) == i
  {
  }

  /** The calls a phase issued, and whether it succeeded. */
  datatype Run = Run(calls: seq<Call>, ok: bool)

  /** The directory loop: each `mkdir -p` is awaited, and the first one that
      fails throws, so no later directory is attempted. */
  function MkdirPhase(dirs: seq<string>, succeeds: Call -> bool): (r: Run)
    ensures r.ok <==> forall d | d in dirs :: succeeds(Mkdir(MkdirArg(d)))
    ensures r.ok ==> r.calls == MkdirsOf(dirs)
    ensures !r.ok ==>
      && 0 < |r.calls| <= |dirs|
      && r.calls == MkdirsOf(dirs)[..|r.calls|]
      && !succeeds(r.calls[|r.calls| - 1])
      && forall k | 0 <= k < |r.calls| - 1 :: succeeds(r.calls[k])
  {
    var cs := MkdirsOf(dirs);
    var n := FirstFailure(cs, succeeds);
    if n == |cs| then
      assert forall d | d in dirs :: succeeds(Mkdir(MkdirArg(d))) by {
        forall d | d in dirs ensures succeeds(Mkdir(MkdirArg(d))) {
          var k :| 0 <= k < |dirs| && dirs[k] == d;
          assert cs[k] == Mkdir(MkdirArg(d));
        }
      }
      Run(cs, true)
    else
      assert cs[n] == Mkdir(MkdirArg(dirs[n]));
      Run(cs[..n + 1], false)
  }

  /** The write phase: one device write per planned file, all issued. */
  function WriteCalls(files: seq<FileWrite>, target: string): (cs: seq<Call>)
    ensures |cs| == |files|
  {
    seq(|files|, k requires 0 <= k < |files| =>
      WriteFile(DevicePath(files[k].path, target), files[k].content))
  }

  /** Staging: the directory phase, then, only when it succeeded, the write
      phase, which succeeds when every write does. */
  function StageCalls(plan: Plan, target: string, succeeds: Call -> bool): Run {
    var m := MkdirPhase(plan.dirs, succeeds);
    if !m.ok then m
    else
      var ws := WriteCalls(plan.files, target);
      Run(m.calls + ws, forall k | 0 <= k < |ws| :: succeeds(ws[k]))
  }

  /** Staging succeeds exactly when every directory creation and every
      write of the plan succeeds. */
  lemma StageSucceedsIff(plan: Plan, target: string, succeeds: Call -> bool)
    ensures StageCalls(plan, target, succeeds).ok <==>
      && (forall d | d in plan.dirs :: succeeds(Mkdir(MkdirArg(d))))
      && (forall k | 0 <= k < |plan.files| ::
            succeeds(WriteFile(DevicePath(plan.files[k].path, target), plan.files[k].content)))
  {
    var ws := WriteCalls(plan.files, target);
    assert forall k | 0 <= k < |plan.files| :: ws[k] == WriteFile(DevicePath(plan.files[k].path, target), plan.files[k].content);
  }

  /** The order of the staging calls: only directory creations and device
      writes; no directory after a write; a write only once every directory
      exists; and, when the directories all exist, one `mkdir -p` per
      directory followed by one write per file. */
  lemma StageOrder(plan: Plan, target: string, succeeds: Call -> bool)
    ensures var r := StageCalls(plan, target, succeeds);
      && (forall k | 0 <= k < |r.calls| :: r.calls[k].Mkdir? || r.calls[k].WriteFile?)
      && (forall i, j | 0 <= i < j < |r.calls| :: r.calls[i].WriteFile? ==> r.calls[j].WriteFile?)
      && ((exists k | 0 <= k < |r.calls| :: r.calls[k].WriteFile?) ==>
            forall d | d in plan.dirs :: succeeds(Mkdir(MkdirArg(d))))
      && (MkdirPhase(plan.dirs, succeeds).ok ==>
            r.calls == MkdirsOf(plan.dirs) + WriteCalls(plan.files, target))
  {
    var r := StageCalls(plan, target, succeeds);
    var m := MkdirPhase(plan.dirs, succeeds);
    var mk := MkdirsOf(plan.dirs);
    if m.ok {
      var ws := WriteCalls(plan.files, target);
      assert r.calls == mk + ws;
      assert forall k | 0 <= k < |mk| :: r.calls[k] == mk[k] && mk[k].Mkdir?;
      assert forall k | |mk| <= k < |r.calls| :: r.calls[k] == ws[k - |mk|] && ws[k - |mk|].WriteFile?;
    } else {
      assert forall k | 0 <= k < |r.calls| :: r.calls[k] == mk[k] && mk[k].Mkdir?;
    }
  }

  /** Staging once every directory exists: the run is the directory
      creations followed by the writes, it succeeds when every write does,
      and the device ends as the writes alone leave it. */
  lemma StageAfterDirs(plan: Plan, target: string, succeeds: Call -> bool, dev: map<string, Bytes>, before: seq<Call>)
    requires MkdirPhase(plan.dirs, succeeds).ok
    ensures var run := StageCalls(plan, target, succeeds);
      var ws := WriteCalls(plan.files, target);
      && before + MkdirPhase(plan.dirs, succeeds).calls + ws == before + run.calls
      && (run.ok <==> forall k | 0 <= k < |plan.files| :: succeeds(ws[k]))
      && ApplyWrites(dev, ws, succeeds) == ApplyWrites(dev, run.calls, succeeds)
  {
    var mk := MkdirsOf(plan.dirs);
    var ws := WriteCalls(plan.files, target);
    assert before + mk + ws == before + (mk + ws);
    ApplyWritesAppend(dev, mk, ws, succeeds);
    ApplyNoWrites(dev, mk, succeeds);
  }

  /** Staging whose directory phase failed: nothing more is issued and the
      device is untouched. */
  lemma StageWhenDirsFail(plan: Plan, target: string, succeeds: Call -> bool, dev: map<string, Bytes>)
    requires !MkdirPhase(plan.dirs, succeeds).ok
    ensures StageCalls(plan, target, succeeds) == MkdirPhase(plan.dirs, succeeds)
    ensures ApplyWrites(dev, MkdirPhase(plan.dirs, succeeds).calls, succeeds) == dev
  {
    ApplyNoWrites(dev, MkdirPhase(plan.dirs, succeeds).calls, succeeds);
  }

  /** The mods device after a sequence of calls: each successful write
      stores its content at its path. */
  function ApplyWrites(dev: map<string, Bytes>, cs: seq<Call>, succeeds: Call -> bool): map<string, Bytes>
    decreases |cs|
  {
    if cs == [] then dev
    else
      var before := ApplyWrites(dev, cs[..|cs| - 1], succeeds);
      var c := cs[|cs| - 1];
      if c.WriteFile? && succeeds(c) then before[c.devicePath := c.content] else before
  }

  lemma {:induction false} ApplyWritesAppend(dev: map<string, Bytes>, a: seq<Call>, b: seq<Call>, succeeds: Call -> bool)
    ensures ApplyWrites(dev, a + b, succeeds) == ApplyWrites(ApplyWrites(dev, a, succeeds), b, succeeds)
    decreases |b|
  {
    if b == [] {
      assert a + b == a;
    } else {
      assert (a + b)[..|a + b| - 1] == a + b[..|b| - 1];
      ApplyWritesAppend(dev, a, b[..|b| - 1], succeeds);
    }
  }

  /** Calls that write nothing leave the device as it was. */
  lemma {:induction false} ApplyNoWrites(dev: map<string, Bytes>, cs: seq<Call>, succeeds: Call -> bool)
    requires forall k | 0 <= k < |cs| :: !cs[k].WriteFile?
    ensures ApplyWrites(dev, cs, succeeds) == dev
    decreases |cs|
  {
    if cs != [] {
      ApplyNoWrites(dev, cs[..|cs| - 1], succeeds);
    }
  }

  /** A successful write that no later write to the same path follows can be
      read back. */
  lemma {:induction false} ReadBackLastWrite(dev: map<string, Bytes>, cs: seq<Call>, succeeds: Call -> bool, k: nat)
    requires k < |cs| && cs[k].WriteFile? && succeeds(cs[k])
    requires forall j | k < j < |cs| :: cs[j].WriteFile? ==> cs[j].devicePath != cs[k].devicePath
    ensures var after := ApplyWrites(dev, cs, succeeds);
      cs[k].devicePath in after && after[cs[k].devicePath] == cs[k].content
    decreases |cs|
  {
    if k < |cs| - 1 {
      ReadBackLastWrite(dev, cs[..|cs| - 1], succeeds, k);
    }
  }

  /** A path that no successful write touches keeps its old state. */
  lemma {:induction false} UntouchedPathsKept(dev: map<string, Bytes>, cs: seq<Call>, succeeds: Call -> bool, path: string)
    requires forall k | 0 <= k < |cs| :: cs[k].WriteFile? && succeeds(cs[k]) ==> cs[k].devicePath != path
    ensures var after := ApplyWrites(dev, cs, succeeds);
      (path in after <==> path in dev) && (path in dev ==> after[path] == dev[path])
    decreases |cs|
  {
    if cs != [] {
      UntouchedPathsKept(dev, cs[..|cs| - 1], succeeds, path);
    }
  }

  ghost predicate DistinctNames(es: seq<Entry>) {
    forall i, j | 0 <= i < j < |es| :: es[i].name != es[j].name
  }

  lemma {:induction false} FileEntriesDistinct(es: seq<Entry>)
    requires DistinctNames(es)
    ensures DistinctNames(FileEntries(es))
  {
    if es != [] {
      var n := |es| - 1;
      var init := es[..n];
      FileEntriesDistinct(init);
      var rest := FileEntries(init);
      forall j | 0 <= j < |rest| ensures rest[j].name != es[n].name {
        var i :| 0 <= i < n && init[i] == rest[j] by {
          assert rest[j] in init;
        }
      }
    }
  }

  /** The k-th device write of a plan stores the k-th file entry at "/"
      followed by its archive-internal path. */
  lemma WriteCallOfEntry(entries: seq<Entry>, target: string, k: nat)
    requires k < |FileEntries(entries)|
    ensures var fs := FileEntries(entries); var ws := WriteCalls(PlanEntries(entries, target).files, target);
      |ws| == |fs| && ws[k] == WriteFile("/" + fs[k].name, fs[k].content)
  {
    PlanFilesInOrder(entries, target);
    DevicePathOfFullPath(target, FileEntries(entries)[k].name);
  }

  /** Calls that write nothing, appended after others, change nothing. */
  lemma ApplyNoWritesAfter(dev: map<string, Bytes>, a: seq<Call>, tail: seq<Call>, succeeds: Call -> bool)
    requires forall k | 0 <= k < |tail| :: !tail[k].WriteFile?
    ensures ApplyWrites(dev, a + tail, succeeds) == ApplyWrites(dev, a, succeeds)
  {
    ApplyWritesAppend(dev, a, tail, succeeds);
    ApplyNoWrites(ApplyWrites(dev, a, succeeds), tail, succeeds);
  }

  /** A successful staging writes exactly the plan's device writes. */
  lemma StagedDevice(plan: Plan, target: string, succeeds: Call -> bool, dev: map<string, Bytes>)
    requires StageCalls(plan, target, succeeds).ok
    ensures ApplyWrites(dev, StageCalls(plan, target, succeeds).calls, succeeds)
         == ApplyWrites(dev, WriteCalls(plan.files, target), succeeds)
  {
    var mk := MkdirsOf(plan.dirs);
    ApplyWritesAppend(dev, mk, WriteCalls(plan.files, target), succeeds);
    ApplyNoWrites(dev, mk, succeeds);
  }

  /** The k-th file entry can be read back once every device write of the
      plan has succeeded. */
  lemma ReadBackEntry(entries: seq<Entry>, target: string, succeeds: Call -> bool, dev: map<string, Bytes>, k: nat)
    requires DistinctNames(entries)
    requires k < |FileEntries(entries)|
    requires var ws := WriteCalls(PlanEntries(entries, target).files, target);
      forall j | 0 <= j < |ws| :: succeeds(ws[j])
    ensures var e := FileEntries(entries)[k];
      var after := ApplyWrites(dev, WriteCalls(PlanEntries(entries, target).files, target), succeeds);
      "/" + e.name in after && after["/" + e.name] == e.content
  {
    var ws := WriteCalls(PlanEntries(entries, target).files, target);
    var fs := FileEntries(entries);
    FileEntriesDistinct(entries);
    WriteCallOfEntry(entries, target, k);
    forall j | k < j < |ws| ensures ws[j].devicePath != ws[k].devicePath {
      WriteCallOfEntry(entries, target, j);
      assert fs[j].name != fs[k].name;
      assert ("/" + fs[j].name)[1..] == fs[j].name;
      assert ("/" + fs[k].name)[1..] == fs[k].name;
    }
    ReadBackLastWrite(dev, ws, succeeds, k);
  }

  /** Once staging succeeds, every file of the archive can be read back from
      the mods device, at "/" followed by its archive-internal path, with
      its own content (archive entry names are distinct keys). */
  lemma StagedFilesReadBack(entries: seq<Entry>, target: string, succeeds: Call -> bool, dev: map<string, Bytes>)
    requires DistinctNames(entries)
    requires StageCalls(PlanEntries(entries, target), target, succeeds).ok
    ensures var after := ApplyWrites(dev, StageCalls(PlanEntries(entries, target), target, succeeds).calls, succeeds);
      forall e | e in entries && !e.isDir :: "/" + e.name in after && after["/" + e.name] == e.content
  {
    var plan := PlanEntries(entries, target);
    var ws := WriteCalls(plan.files, target);
    var fs := FileEntries(entries);
    StagedDevice(plan, target, succeeds, dev);
    assert forall j | 0 <= j < |ws| :: succeeds(ws[j]);
    forall e | e in entries && !e.isDir
      ensures var after := ApplyWrites(dev, ws, succeeds);
        "/" + e.name in after && after["/" + e.name] == e.content
    {
      assert e in fs;
      var k :| 0 <= k < |fs| && fs[k] == e;
      ReadBackEntry(entries, target, succeeds, dev, k);
    }
  }

  /** An archive of two files in two different folders, `a/x` and `b/y`:
      the plan creates exactly the two folders under the target, and not
      the target itself. */
  lemma TwoFoldersDirs(target: string, a: string, x: string, b: string, y: string, c1: Bytes, c2: Bytes)
    requires '/' !in x && '/' !in y && a != b
    ensures PlanEntries([Entry(a + "/" + x, false, c1), Entry(b + "/" + y, false, c2)], target).dirs
         == [target + "/" + a, target + "/" + b]
  {
    TwoFoldersSteps(target, a, x, b, y, c1, c2);
  }

  /** The same archive: the device writes go to "/a/x" and "/b/y", outside
      the folders created under the target. */
  lemma TwoFoldersWrites(target: string, a: string, x: string, b: string, y: string, c1: Bytes, c2: Bytes)
    requires '/' !in x && '/' !in y && a != b
    ensures WriteCalls(PlanEntries([Entry(a + "/" + x, false, c1), Entry(b + "/" + y, false, c2)], target).files, target)
         == [WriteFile("/" + (a + "/" + x), c1), WriteFile("/" + (b + "/" + y), c2)]
  {
    TwoFoldersSteps(target, a, x, b, y, c1, c2);
    TwoWrites(target, a + "/" + x, b + "/" + y, c1, c2);
  }

  /** The two loop iterations for `a/x` and `b/y`. */
  lemma TwoFoldersSteps(target: string, a: string, x: string, b: string, y: string, c1: Bytes, c2: Bytes)
    requires '/' !in x && '/' !in y && a != b
    ensures PlanEntries([Entry(a + "/" + x, false, c1), Entry(b + "/" + y, false, c2)], target)
         == Plan([target + "/" + a, target + "/" + b],
                 [FileWrite(FullPath(target, a + "/" + x), c1), FileWrite(FullPath(target, b + "/" + y), c2)])
  {
    var e1, e2 := Entry(a + "/" + x, false, c1), Entry(b + "/" + y, false, c2);
    var d1, d2 := target + "/" + a, target + "/" + b;
    var p1 := PlanEntries([e1], target);
    OneFolderPlan(target, a, x, c1);
    assert d1 != d2 by {
      assert d1[|target| + 1..] == a;
      assert d2[|target| + 1..] == b;
    }
    assert AddDir([d1], d2) == [d1, d2];
    OneFolderStep(p1, target, b, y, c2);
    assert [e1, e2][..1] == [e1];
    assert PlanEntries([e1, e2], target) == Step(p1, e2, target);
  }

  /** A one-file archive `a/x`: the folder `target/a` and the write. */
  lemma OneFolderPlan(target: string, a: string, x: string, c: Bytes)
    requires '/' !in x
    ensures PlanEntries([Entry(a + "/" + x, false, c)], target)
         == Plan([target + "/" + a], [FileWrite(FullPath(target, a + "/" + x), c)])
  {
    var e := Entry(a + "/" + x, false, c);
    assert [e][..0] == [];
    assert PlanEntries([e], target) == Step(Plan([], []), e, target);
    OneFolderStep(Plan([], []), target, a, x, c);
  }

  /** The device writes of two planned files. */
  lemma TwoWrites(target: string, n1: string, n2: string, c1: Bytes, c2: Bytes)
    ensures WriteCalls([FileWrite(FullPath(target, n1), c1), FileWrite(FullPath(target, n2), c2)], target)
         == [WriteFile("/" + n1, c1), WriteFile("/" + n2, c2)]
  {
    DevicePathOfFullPath(target, n1);
    DevicePathOfFullPath(target, n2);
  }

  /** One file `a/x` adds the folder `target/a`, when new, and the write. */
  lemma OneFolderStep(p: Plan, target: string, a: string, x: string, c: Bytes)
    requires '/' !in x
    ensures Step(p, Entry(a + "/" + x, false, c), target)
         == Plan(AddDir(p.dirs, target + "/" + a), p.files + [FileWrite(FullPath(target, a + "/" + x), c)])
  {
    assert FullPath(target, a + "/" + x) == (target + "/" + a) + "/" + x;
    DirNameOfFullPath(target + "/" + a, x);
  }
}
