/** The launcher's page-level state and the operations that change it:
    starting an engine, launching and restarting the game process, browsing
    the guest file system, staging an archive onto the mods device,
    installing a mod and handling a drop. The runtime's answers are
    parameters: `succeeds` says which `mkdir -p` runs and device or guest
    writes succeed, `listing` gives the text the browser receives for the
    `ls -F` argument, `launched` is the pid of a started process (None when
    the start failed), `archive` the decoded archive (None when it does not
    decode) and `folderView` the entries the archive library enumerates for
    a sub-folder. */
module App {
  import opened JsStrings
  import opened Guest
  import opened Explorer
  import opened Planner
  import opened Staging
  import opened RootDetect
  import opened Tracker
  import opened Install

  /** How far the start-up got before something threw. */
  datatype Boot =
    /** A block device or the mods device could not be created. */
    | DevicesFailed
    /** The mods device exists; the runtime could not be created. */
    | RuntimeFailed
    /** The runtime exists; starting Xorg or the network login failed. */
    | DisplayFailed
    /** Everything started. */
    | Booted

  /** A file dropped on the page: its name and its bytes. */
  datatype Dropped = Dropped(name: string, content: Bytes)

  function DroppedNames(files: seq<Dropped>): (ns: seq<string>)
    ensures |ns| == |files| && forall k | 0 <= k < |files| :: ns[k] == files[k].name
  {
    seq(|files|, k requires 0 <= k < |files| => files[k].name)
  }

  /** The listing a render issues: one `ls -F` of the escaped path when the
      runtime is up. */
  function ListCalls(ready: bool, path: string): (cs: seq<Call>)
    ensures |cs| <= 1 && (cs != [] <==> ready)
    ensures ready ==> cs[0] == ListDir(EscapeQuotes(path))
  {
    if ready then [ListDir(EscapeQuotes(path))] else []
  }

  /** Advanced mode: one guest write per dropped file, into the browsed
      directory, all issued. */
  function UploadCalls(dir: string, files: seq<Dropped>): (cs: seq<Call>)
    ensures |cs| == |files|
  {
    seq(|files|, k requires 0 <= k < |files| => GuestWrite(ChildPath(dir, files[k].name), files[k].content))
  }

  /** The guest writes of `uploadToExplorer`, one per dropped file in
      order, into `dir`; `ok` tells whether all of them succeeded. */
  method IssueUploads(dir: string, files: seq<Dropped>, succeeds: Call -> bool) returns (ok: bool, issued: seq<Call>)
    ensures issued == UploadCalls(dir, files)
    ensures ok <==> forall k | 0 <= k < |files| :: succeeds(issued[k])
  {
    ghost var writes := UploadCalls(dir, files);
    issued, ok := [], true;
    for k := 0 to |files|
      invariant issued == writes[..k]
      invariant ok == forall j | 0 <= j < k :: succeeds(writes[j])
    {
      var targetPath := (if dir == "/" then "" else dir) + "/" + files[k].name;
      var c := GuestWrite(targetPath, files[k].content);
      assert c == writes[k];
      assert writes[..k + 1] == issued + [c];
      issued := issued + [c];
      ok := ok && succeeds(c);
    }
    assert writes[..|files|] == writes;
  }

  /** Every dropped file lands in the browsed directory under its own name. */
  lemma UploadTargets(dir: string, files: seq<Dropped>)
    requires dir != ""
    ensures var cs := UploadCalls(dir, files);
      forall k | 0 <= k < |cs| ::
        && cs[k].GuestWrite? && cs[k].content == files[k].content
        && EndsWith(cs[k].path, "/" + files[k].name)
        && ('/' !in files[k].name ==> ParentPath(cs[k].path) == dir)
  {
    var cs := UploadCalls(dir, files);
    forall k | 0 <= k < |cs| && '/' !in files[k].name
      ensures ParentPath(cs[k].path) == dir
    {
      ParentOfChild(dir, files[k].name);
    }
  }

  /** The entries an install stages, or why it stops before staging. */
  function InstallEntries(engine: Option<string>, archive: Option<seq<Entry>>, folderView: string -> seq<Entry>): (r: Outcome<seq<Entry>>)
    ensures archive.None? ==> r == Failure(LoadFailed)
    ensures archive.Some? ==> r == EntriesToStage(engine, archive.value, folderView)
  {
    match archive
    case None => Failure(LoadFailed)
    case Some(zip) => EntriesToStage(engine, zip, folderView)
  }

  /** The calls an install makes and what it reports. */
  datatype InstallTrace = InstallTrace(calls: seq<Call>, result: Outcome<string>)

  /** An install: decode, choose the entries, stage them under the mod's
      target; only when staging finished does it show "/mods" in the
      browser and restart the game. */
  function InstallSpec(engines: seq<Engine>, ready: bool, engine: Option<string>, pid: Option<int>, fileName: string,
                       archive: Option<seq<Entry>>, folderView: string -> seq<Entry>,
                       succeeds: Call -> bool): InstallTrace
  {
    var target := ModTarget(fileName);
    match InstallEntries(engine, archive, folderView)
    case Failure(e) => InstallTrace([], Failure(e))
    case Success(entries) =>
      var run := StageCalls(PlanEntries(entries, target), target, succeeds);
      if !run.ok then InstallTrace(run.calls, Failure(StagingFailed))
      else InstallTrace(run.calls + ListCalls(ready, "/mods") + RestartCalls(engines, ready, engine, pid),
                        Success(ModName(fileName)))
  }

  /** The game is killed or launched only by an install whose staging
      finished, and an install either succeeds or names its failure. */
  lemma RestartOnlyAfterStaging(engines: seq<Engine>, ready: bool, engine: Option<string>, pid: Option<int>, fileName: string,
                                archive: Option<seq<Entry>>, folderView: string -> seq<Entry>,
                                succeeds: Call -> bool)
    ensures var t := InstallSpec(engines, ready, engine, pid, fileName, archive, folderView, succeeds);
      var pre := InstallEntries(engine, archive, folderView);
      var target := ModTarget(fileName);
      && (t.result.Success? <==>
            pre.Success? && StageCalls(PlanEntries(pre.value, target), target, succeeds).ok)
      && forall k | 0 <= k < |t.calls| :: t.calls[k].Kill? || t.calls[k].Launch? ==> t.result.Success?
  {
    var t := InstallSpec(engines, ready, engine, pid, fileName, archive, folderView, succeeds);
    var pre := InstallEntries(engine, archive, folderView);
    var target := ModTarget(fileName);
    if pre.Success? {
      var run := StageCalls(PlanEntries(pre.value, target), target, succeeds);
      if !run.ok {
        assert t.calls == run.calls;
      }
    }
  }

  /** V-Slice with no marker folder anywhere in the archive: the install
      stops before creating any directory or writing any file. */
  lemma NoRootNoWrites(engines: seq<Engine>, ready: bool, pid: Option<int>, fileName: string, zip: seq<Entry>,
                       folderView: string -> seq<Entry>, succeeds: Call -> bool)
    requires forall k | 0 <= k < |zip| :: MatchRoot(zip[k].name).None?
    ensures InstallSpec(engines, ready, Some("vslice"), pid, fileName, Some(zip), folderView, succeeds)
         == InstallTrace([], Failure(NoRootFound))
  {
  }

  /** After a successful install every file of the staged entries can be
      read back from the mods device at "/" followed by its path inside the
      archive (entry names being distinct). */
  lemma InstalledFilesReadBack(engines: seq<Engine>, ready: bool, engine: Option<string>, pid: Option<int>, fileName: string,
                               archive: Option<seq<Entry>>, folderView: string -> seq<Entry>,
                               succeeds: Call -> bool, dev: map<string, Bytes>)
    requires InstallEntries(engine, archive, folderView).Success?
    requires DistinctNames(InstallEntries(engine, archive, folderView).value)
    requires InstallSpec(engines, ready, engine, pid, fileName, archive, folderView, succeeds).result.Success?
    ensures var entries := InstallEntries(engine, archive, folderView).value;
      var after := ApplyWrites(dev, InstallSpec(engines, ready, engine, pid, fileName, archive, folderView, succeeds).calls, succeeds);
      forall e | e in entries && !e.isDir :: "/" + e.name in after && after["/" + e.name] == e.content
  {
    var entries := InstallEntries(engine, archive, folderView).value;
    var target := ModTarget(fileName);
    RestartOnlyAfterStaging(engines, ready, engine, pid, fileName, archive, folderView, succeeds);
    InstallSucceeded(engines, ready, engine, pid, fileName, archive, folderView, succeeds, entries, dev, []);
    StagedFilesReadBack(entries, target, succeeds, dev);
  }

  /** An install that fails before staging issues nothing. */
  lemma InstallStopsEarly(engines: seq<Engine>, ready: bool, engine: Option<string>, pid: Option<int>, fileName: string,
                          archive: Option<seq<Entry>>, folderView: string -> seq<Entry>, succeeds: Call -> bool)
    requires InstallEntries(engine, archive, folderView).Failure?
    ensures InstallSpec(engines, ready, engine, pid, fileName, archive, folderView, succeeds)
         == InstallTrace([], Failure(InstallEntries(engine, archive, folderView).error))
  {
  }

  /** An install whose staging failed issues the staging calls only. */
  lemma InstallStagingFailed(engines: seq<Engine>, ready: bool, engine: Option<string>, pid: Option<int>, fileName: string,
                             archive: Option<seq<Entry>>, folderView: string -> seq<Entry>, succeeds: Call -> bool,
                             entries: seq<Entry>)
    requires InstallEntries(engine, archive, folderView) == Success(entries)
    requires !StageCalls(PlanEntries(entries, ModTarget(fileName)), ModTarget(fileName), succeeds).ok
    ensures InstallSpec(engines, ready, engine, pid, fileName, archive, folderView, succeeds)
         == InstallTrace(StageCalls(PlanEntries(entries, ModTarget(fileName)), ModTarget(fileName), succeeds).calls,
                         Failure(StagingFailed))
  {
  }

  /** A successful install: the staging calls, the listing of "/mods" and
      the restart; the device is as the staging left it. */
  lemma InstallSucceeded(engines: seq<Engine>, ready: bool, engine: Option<string>, pid: Option<int>, fileName: string,
                         archive: Option<seq<Entry>>, folderView: string -> seq<Entry>, succeeds: Call -> bool,
                         entries: seq<Entry>, dev: map<string, Bytes>, before: seq<Call>)
    requires InstallEntries(engine, archive, folderView) == Success(entries)
    requires StageCalls(PlanEntries(entries, ModTarget(fileName)), ModTarget(fileName), succeeds).ok
    ensures var run := StageCalls(PlanEntries(entries, ModTarget(fileName)), ModTarget(fileName), succeeds);
      var t := InstallSpec(engines, ready, engine, pid, fileName, archive, folderView, succeeds);
      && t.result == Success(ModName(fileName))
      && before + run.calls + ListCalls(ready, "/mods") + RestartCalls(engines, ready, engine, pid) == before + t.calls
      && ApplyWrites(dev, t.calls, succeeds) == ApplyWrites(dev, run.calls, succeeds)
  {
    var run := StageCalls(PlanEntries(entries, ModTarget(fileName)), ModTarget(fileName), succeeds);
    var list, restart := ListCalls(ready, "/mods"), RestartCalls(engines, ready, engine, pid);
    var follow := list + restart;
    InstallSpecOnSuccess(engines, ready, engine, pid, fileName, archive, folderView, succeeds, entries);
    SeqAssoc4(before, run.calls, list, restart);
    FollowUpWritesNothing(engines, ready, engine, pid);
    ApplyNoWritesAfter(dev, run.calls, follow, succeeds);
  }

  lemma SeqAssoc4<T>(a: seq<T>, b: seq<T>, c: seq<T>, d: seq<T>)
    ensures a + b + c + d == a + (b + (c + d))
  {
  }

  /** The trace of an install whose staging finished. */
  lemma InstallSpecOnSuccess(engines: seq<Engine>, ready: bool, engine: Option<string>, pid: Option<int>, fileName: string,
                             archive: Option<seq<Entry>>, folderView: string -> seq<Entry>, succeeds: Call -> bool,
                             entries: seq<Entry>)
    requires InstallEntries(engine, archive, folderView) == Success(entries)
    requires StageCalls(PlanEntries(entries, ModTarget(fileName)), ModTarget(fileName), succeeds).ok
    ensures InstallSpec(engines, ready, engine, pid, fileName, archive, folderView, succeeds)
         == InstallTrace(StageCalls(PlanEntries(entries, ModTarget(fileName)), ModTarget(fileName), succeeds).calls
                           + (ListCalls(ready, "/mods") + RestartCalls(engines, ready, engine, pid)),
                         Success(ModName(fileName)))
  {
    var run := StageCalls(PlanEntries(entries, ModTarget(fileName)), ModTarget(fileName), succeeds);
    var list, restart := ListCalls(ready, "/mods"), RestartCalls(engines, ready, engine, pid);
    assert run.calls + list + restart == run.calls + (list + restart);
  }

  /** The listing and the restart that follow a successful staging write
      nothing to the mods device. */
  lemma FollowUpWritesNothing(engines: seq<Engine>, ready: bool, engine: Option<string>, pid: Option<int>)
    ensures var cs := ListCalls(ready, "/mods") + RestartCalls(engines, ready, engine, pid);
      forall k | 0 <= k < |cs| :: !cs[k].WriteFile?
  {
    var list := ListCalls(ready, "/mods");
    var restart := RestartCalls(engines, ready, engine, pid);
    var cs := list + restart;
    forall k | 0 <= k < |cs| ensures !cs[k].WriteFile? {
      if k < |list| {
        assert cs[k] == list[k];
      } else {
        assert cs[k] == restart[k - |list|];
      }
    }
  }

  /** The device writes of `extractAndWriteZip`, one per planned file in
      order, each to the file's path with the target stripped, applied to
      `dev`; `ok` tells whether all of them succeeded. */
  method IssueWrites(files: seq<FileWrite>, target: string, succeeds: Call -> bool, dev: map<string, Bytes>)
    returns (ok: bool, issued: seq<Call>, after: map<string, Bytes>)
    ensures issued == WriteCalls(files, target)
    ensures ok <==> forall k | 0 <= k < |files| :: succeeds(issued[k])
    ensures after == ApplyWrites(dev, issued, succeeds)
  {
    ghost var writes := WriteCalls(files, target);
    issued, after, ok := [], dev, true;
    for j := 0 to |files|
      invariant issued == writes[..j]
      invariant ok == forall k | 0 <= k < j :: succeeds(writes[k])
      invariant after == ApplyWrites(dev, issued, succeeds)
    {
      var file := files[j];
      var devicePath := if StartsWith(file.path, target) then file.path[|target|..] else file.path;
      var c := WriteFile(devicePath, file.content);
      assert c == writes[j];
      assert writes[..j + 1] == issued + [c];
      issued := issued + [c];
      if succeeds(c) {
        after := after[devicePath := file.content];
      } else {
        ok := false;
      }
    }
    assert writes[..|files|] == writes;
  }

  /** The page-level state: whether the runtime (`cx`) and the mods device
      exist, the selected engine, the browsed directory and what the browser
      shows, the tracked game pid, the calls issued so far and the contents
      of the mods device, which persists between sessions. */
  class Launcher {
    /** The engine table the launcher offers. */
    const engines: seq<Engine>
    var ready: bool
    var modsReady: bool
    var currentEngine: Option<string>
    var explorerPath: string
    var view: Option<View>
    var fnfPid: Option<int>
    var calls: seq<Call>
    var modsFiles: map<string, Bytes>

    /** The runtime is created after the mods device, and a game process is
        only ever started by a running runtime. */
    ghost predicate Valid()
      reads this
    {
      && (ready ==> modsReady)
      && (fnfPid.Some? ==> ready)
    }

    constructor (stored: map<string, Bytes>)
      ensures Valid()
      ensures engines == Engines
      ensures !ready && !modsReady && currentEngine.None? && fnfPid.None?
      ensures explorerPath == "/" && view.None? && calls == [] && modsFiles == stored
    {
      engines := Engines;
      ready, modsReady := false, false;
      currentEngine := None;
      explorerPath := "/";
      view := None;
      fnfPid := None;
      calls := [];
      modsFiles := stored;
    }

    /** `launchFnf`: start the selected engine in the background and track
        its pid. */
    method LaunchFnf(launched: Option<int>)
      requires Valid()
      modifies this
      ensures Valid()
      ensures calls == old(calls) + LaunchCalls(engines, ready, currentEngine)
      ensures fnfPid == PidAfterLaunch(engines, ready, currentEngine, old(fnfPid), launched)
      ensures ready == old(ready) && modsReady == old(modsReady) && currentEngine == old(currentEngine)
      ensures explorerPath == old(explorerPath) && view == old(view) && modsFiles == old(modsFiles)
    {
      if !ready || !EngineSelected(currentEngine) {
        return;
      }
      var engineData := FindEngine(engines, currentEngine.value);
      if engineData.None? {
        return;
      }
      calls := calls + [Launch(engineData.value.executablePath)];
      if launched.Some? {
        fnfPid := launched;
      }
    }

    /** `restartFnfProcess`: kill the tracked process when its pid is
        truthy, forget it whatever the kill did, then launch again. */
    method RestartFnfProcess(launched: Option<int>)
      requires Valid()
      modifies this
      ensures Valid()
      ensures calls == old(calls) + RestartCalls(engines, ready, currentEngine, old(fnfPid))
      ensures fnfPid == PidAfterRestart(engines, ready, currentEngine, old(fnfPid), launched)
      ensures ready == old(ready) && modsReady == old(modsReady) && currentEngine == old(currentEngine)
      ensures explorerPath == old(explorerPath) && view == old(view) && modsFiles == old(modsFiles)
    {
      if fnfPid.Some? && fnfPid.value != 0 {
        calls := calls + [Kill(fnfPid.value)];
        fnfPid := None;
      }
      LaunchFnf(launched);
    }

    /** `renderExplorer`: list the directory and show it, with its ".."
        entry, and remember it as the browsed directory. Nothing happens
        before the runtime is up. */
    method RenderExplorer(path: string, listing: string -> string)
      requires Valid()
      modifies this
      ensures Valid()
      ensures calls == old(calls) + ListCalls(ready, path)
      ensures ready ==> explorerPath == path && view == Some(ExplorerView(path, listing(EscapeQuotes(path))))
      ensures !ready ==> explorerPath == old(explorerPath) && view == old(view)
      ensures ready == old(ready) && modsReady == old(modsReady) && currentEngine == old(currentEngine)
      ensures fnfPid == old(fnfPid) && modsFiles == old(modsFiles)
    {
      if !ready {
        return;
      }
      var sanitizedPath := EscapeQuotes(path);
      calls := calls + [ListDir(sanitizedPath)];
      var output := listing(sanitizedPath);
      view := Some(ExplorerView(path, output));
      explorerPath := path;
    }

    /** `startEngine`: select the engine, bring up the devices and the
        runtime as far as they go, and when everything started launch the
        game and show the browsed directory. */
    method StartEngine(engineId: string, boot: Boot, launched: Option<int>, listing: string -> string)
      requires Valid()
      modifies this
      ensures Valid()
      ensures currentEngine == Some(engineId)
      ensures modsReady == (old(modsReady) || boot != DevicesFailed)
      ensures ready == (old(ready) || boot == DisplayFailed || boot == Booted)
      ensures boot != Booted ==>
        calls == old(calls) && fnfPid == old(fnfPid) && explorerPath == old(explorerPath) && view == old(view)
      ensures boot == Booted ==>
        && calls == old(calls) + LaunchCalls(engines, true, Some(engineId)) + ListCalls(true, old(explorerPath))
        && fnfPid == PidAfterLaunch(engines, true, Some(engineId), old(fnfPid), launched)
        && explorerPath == old(explorerPath)
        && view == Some(ExplorerView(old(explorerPath), listing(EscapeQuotes(old(explorerPath)))))
      ensures modsFiles == old(modsFiles)
    {
      currentEngine := Some(engineId);
      if boot == DevicesFailed {
        return;
      }
      modsReady := true;
      if boot == RuntimeFailed {
        return;
      }
      ready := true;
      if boot == DisplayFailed {
        return;
      }
      ghost var before := calls;
      LaunchFnf(launched);
      ghost var launchCalls := LaunchCalls(engines, true, Some(engineId));
      assert calls == before + launchCalls;
      RenderExplorer(explorerPath, listing);
      assert calls == before + launchCalls + ListCalls(true, old(explorerPath));
    }

    /** The directory loop of `extractAndWriteZip`: one `mkdir -p` per
        directory, each awaited; the first failure aborts the loop. */
    method MakeDirs(dirs: seq<string>, succeeds: Call -> bool) returns (ok: bool)
      modifies this
      ensures ok == MkdirPhase(dirs, succeeds).ok
      ensures calls == old(calls) + MkdirPhase(dirs, succeeds).calls
      ensures modsFiles == old(modsFiles)
      ensures ready == old(ready) && modsReady == old(modsReady) && currentEngine == old(currentEngine)
      ensures explorerPath == old(explorerPath) && view == old(view) && fnfPid == old(fnfPid)
    {
      ghost var mkdirs := MkdirsOf(dirs);
      var issued := calls;
      for i := 0 to |dirs|
        invariant issued == old(calls) + mkdirs[..i]
        invariant forall k | 0 <= k < i :: succeeds(mkdirs[k])
      {
        var c := Mkdir(MkdirArg(dirs[i]));
        assert c == mkdirs[i];
        issued := issued + [c];
        assert issued == old(calls) + mkdirs[..i + 1];
        if !succeeds(c) {
          FirstFailureAt(mkdirs, succeeds, i);
          calls := issued;
          return false;
        }
      }
      assert mkdirs[..|dirs|] == mkdirs;
      calls := issued;
      ok := true;
    }

    /** The write phase of `extractAndWriteZip`: every device write is
        issued, each to the file's path with the target stripped; the phase
        succeeds when all of them do. */
    method WriteAll(files: seq<FileWrite>, target: string, succeeds: Call -> bool) returns (ok: bool)
      modifies this
      ensures ok <==> forall k | 0 <= k < |files| :: succeeds(WriteCalls(files, target)[k])
      ensures calls == old(calls) + WriteCalls(files, target)
      ensures modsFiles == ApplyWrites(old(modsFiles), WriteCalls(files, target), succeeds)
      ensures ready == old(ready) && modsReady == old(modsReady) && currentEngine == old(currentEngine)
      ensures explorerPath == old(explorerPath) && view == old(view) && fnfPid == old(fnfPid)
    {
      var issued, dev;
      ok, issued, dev := IssueWrites(files, target, succeeds, modsFiles);
      calls, modsFiles := calls + issued, dev;
    }

    /** `extractAndWriteZip`: plan the entries under `target`, create the
        directories, then, when they all exist, write the files. */
    method ExtractAndWriteZip(entries: seq<Entry>, target: string, succeeds: Call -> bool) returns (ok: bool)
      modifies this
      ensures var run := StageCalls(PlanEntries(entries, target), target, succeeds);
        && ok == run.ok
        && calls == old(calls) + run.calls
        && modsFiles == ApplyWrites(old(modsFiles), run.calls, succeeds)
      ensures ready == old(ready) && modsReady == old(modsReady) && currentEngine == old(currentEngine)
      ensures explorerPath == old(explorerPath) && view == old(view) && fnfPid == old(fnfPid)
    {
      var dirs, files := CollectPlan(entries, target);
      ok := MakeDirs(dirs, succeeds);
      if !ok {
        StageWhenDirsFail(Plan(dirs, files), target, succeeds, old(modsFiles));
        return;
      }
      ok := WriteAll(files, target, succeeds);
      StageAfterDirs(Plan(dirs, files), target, succeeds, old(modsFiles), old(calls));
    }

    /** `installMod`: derive the target from the file name, choose the
        entries by engine, stage them, and only then show "/mods" and
        restart the game. */
    method InstallMod(fileName: string, archive: Option<seq<Entry>>, folderView: string -> seq<Entry>,
                      succeeds: Call -> bool, listing: string -> string, launched: Option<int>)
      returns (r: Outcome<string>)
      requires Valid()
      modifies this
      ensures Valid()
      ensures var t := InstallSpec(engines, old(ready), old(currentEngine), old(fnfPid), fileName, archive, folderView, succeeds);
        && r == t.result
        && calls == old(calls) + t.calls
        && modsFiles == ApplyWrites(old(modsFiles), t.calls, succeeds)
      ensures r.Failure? ==> fnfPid == old(fnfPid) && explorerPath == old(explorerPath) && view == old(view)
      ensures r.Success? ==>
        && fnfPid == PidAfterRestart(engines, ready, currentEngine, old(fnfPid), launched)
        && (ready ==> explorerPath == "/mods" && view == Some(ExplorerView("/mods", listing(EscapeQuotes("/mods")))))
        && (!ready ==> explorerPath == old(explorerPath) && view == old(view))
      ensures ready == old(ready) && modsReady == old(modsReady) && currentEngine == old(currentEngine)
    {
      var modName := ReplaceFirst(fileName, ".zip", "");
      var targetVmPath := "/" + modName;
      if archive.None? {
        return Failure(LoadFailed);
      }
      var chosen := SelectEntries(currentEngine, archive.value, folderView);
      if chosen.Failure? {
        InstallStopsEarly(engines, ready, currentEngine, fnfPid, fileName, archive, folderView, succeeds);
        return Failure(chosen.error);
      }
      var ok := ExtractAndWriteZip(chosen.value, targetVmPath, succeeds);
      if !ok {
        InstallStagingFailed(engines, ready, currentEngine, fnfPid, fileName, archive, folderView, succeeds, chosen.value);
        return Failure(StagingFailed);
      }
      InstallSucceeded(engines, ready, currentEngine, fnfPid, fileName, archive, folderView, succeeds,
                       chosen.value, old(modsFiles), old(calls));
      RenderExplorer("/mods", listing);
      RestartFnfProcess(launched);
      r := Success(modName);
    }

    /** `uploadToExplorer` (advanced mode): write every dropped file into the
        browsed directory, all writes issued at once; when all succeed,
        refresh the browser. */
    method UploadToExplorer(files: seq<Dropped>, succeeds: Call -> bool, listing: string -> string)
      returns (ok: bool)
      requires Valid()
      modifies this
      ensures Valid()
      ensures ok <==> forall k | 0 <= k < |files| :: succeeds(UploadCalls(old(explorerPath), files)[k])
      ensures calls == old(calls) + UploadCalls(old(explorerPath), files)
                       + (if ok then ListCalls(ready, old(explorerPath)) else [])
      ensures explorerPath == old(explorerPath)
      ensures ok && ready ==> view == Some(ExplorerView(explorerPath, listing(EscapeQuotes(explorerPath))))
      ensures !(ok && ready) ==> view == old(view)
      ensures ready == old(ready) && modsReady == old(modsReady) && currentEngine == old(currentEngine)
      ensures fnfPid == old(fnfPid) && modsFiles == old(modsFiles)
    {
      var issued;
      ok, issued := IssueUploads(explorerPath, files, succeeds);
      calls := calls + issued;
      if ok {
        RenderExplorer(explorerPath, listing);
      }
    }

    /** The drop handler: refuse, upload or install, as `ClassifyDrop`
        decides; `archive` is the decoded first file. */
    method Drop(files: seq<Dropped>, onExplorer: bool, archive: Option<seq<Entry>>,
                folderView: string -> seq<Entry>, succeeds: Call -> bool,
                listing: string -> string, launched: Option<int>)
      returns (action: DropAction)
      requires Valid()
      modifies this
      ensures Valid()
      ensures action == ClassifyDrop(old(ready), old(modsReady), DroppedNames(files), onExplorer)
      ensures action != ModsNotReady
      ensures action == Upload ==>
        var uploads := UploadCalls(old(explorerPath), files);
        var ok := forall k | 0 <= k < |files| :: succeeds(uploads[k]);
        && calls == old(calls) + uploads + (if ok then ListCalls(ready, old(explorerPath)) else [])
        && explorerPath == old(explorerPath)
        && (ok && ready ==> view == Some(ExplorerView(explorerPath, listing(EscapeQuotes(explorerPath)))))
        && (!(ok && ready) ==> view == old(view))
        && fnfPid == old(fnfPid) && modsFiles == old(modsFiles)
      ensures action == InstallFirst ==>
        var t := InstallSpec(engines, old(ready), old(currentEngine), old(fnfPid), files[0].name, archive, folderView, succeeds);
        && calls == old(calls) + t.calls
        && modsFiles == ApplyWrites(old(modsFiles), t.calls, succeeds)
        && (t.result.Failure? ==> fnfPid == old(fnfPid) && explorerPath == old(explorerPath) && view == old(view))
        && (t.result.Success? ==>
              && fnfPid == PidAfterRestart(engines, ready, currentEngine, old(fnfPid), launched)
              && (ready ==> explorerPath == "/mods" && view == Some(ExplorerView("/mods", listing(EscapeQuotes("/mods")))))
              && (!ready ==> explorerPath == old(explorerPath) && view == old(view)))
      ensures action != Upload && action != InstallFirst ==>
        && calls == old(calls) && fnfPid == old(fnfPid) && modsFiles == old(modsFiles)
        && explorerPath == old(explorerPath) && view == old(view)
      ensures ready == old(ready) && modsReady == old(modsReady) && currentEngine == old(currentEngine)
    {
      action := ClassifyDrop(ready, modsReady, DroppedNames(files), onExplorer);
      ModsAlwaysReadyOnDrop(ready, modsReady, DroppedNames(files), onExplorer);
      if action == Upload {
        var ok := UploadToExplorer(files, succeeds, listing);
      } else if action == InstallFirst {
        var r := InstallMod(files[0].name, archive, folderView, succeeds, listing, launched);
      }
    }
  }
}
