# FNF mod launcher core, modelled in Dafny

The launcher runs Friday Night Funkin' engines inside a browser-hosted Linux
guest (CheerpX). Dropping a mod archive (`.zip`) on the page installs the
mod. The launcher stages the archive's files onto a persistent "mods" device
mounted at `/mods`, shows `/mods` in its file browser and restarts the game.
This project models the logic of `script.js` that decides what happens:

- **the install planner** (`extractAndWriteZip`): it builds a
  de-duplicated, insertion-ordered set of directories and an ordered list of
  file writes. It then issues one `mkdir -p` per directory, in set order,
  stopping at the first that fails; only when all of them succeeded does it
  issue all device writes;
- **mod-root detection** for the V-Slice engine: a first-match scan over the
  entry names for the marker folders `data`, `images`, `songs` and `scripts`;
- **the process tracker** (`launchFnf`, `restartFnfProcess`): the one
  tracked game pid, with JavaScript truthiness (a pid of 0 is falsy);
- **install sequencing and dispatch** (`installMod`, the drop handler):
  - the mod name and target;
  - which entries each engine stages;
  - the restart only after staging finished;
- **the browser's path arithmetic** (`renderExplorer`, advanced-mode upload):
  - the parent of a path;
  - the child join;
  - the `ls -F` trailing-slash strip;
  - the quote escape;
  - the blank-line filter.

The runtime's answers are parameters of the model:

- `succeeds: Call -> bool` says whether the promise of a `mkdir -p` run, a
  device write or a guest write resolves. A rejected promise is a failure.
  Exit codes are not inspected, as in the source.
- `launched: Option<int>` is the pid of a started process. `None` means the
  start threw.
- `listing: string -> string` is the text the browser receives for the
  escaped `ls -F` argument.
- `archive: Option<seq<Entry>>` is the decoded archive in enumeration order.
  `None` means it did not decode.
- `folderView: string -> seq<Entry>` is what the archive library enumerates
  for a sub-folder.
- `boot: Boot` says how far start-up got.

Every guest or device interaction is appended to a call log (`Guest.Call`).
The mods device's contents are a `map<string, Bytes>`.

Files:

- `jsstrings.dfy`: the ECMAScript string operations the code relies on.
  - `indexOf` and `lastIndexOf`, which give -1 when absent.
  - `substring(0, end)`, which clamps `end`.
  - `split`, which keeps empty pieces.
  - `replace` with a string pattern, which replaces the first occurrence only.
  - The whitespace set of `trim`.
- `guest.dfy`: the call log.
- `explorer.dfy`: the browser's paths and view.
- `planner.dfy`: the planning loop.
- `staging.dfy`: the directory phase, the write phase and the resulting
  device contents.
- `rootdetect.dfy`: root detection.
- `tracker.dfy`: the engine table and the pid transitions.
- `install.dfy`: the mod name, drop classification and engine dispatch.
- `app.dfy`: the class `Launcher` holding the page state, with the source's
  operations as methods. Each method is proved against the pure
  specification functions of the other modules.

## Behaviour of the code worth knowing

- **Directories planned.** Only a file's immediate parent is planned;
  `mkdir -p` creates the ancestors. The target directory itself is planned
  only when an entry names it or a file sits at the archive's top level
  (`Planner.DirNameOfFullPath`). `Staging.TwoFoldersDirs` shows the plan for
  two nested files: `a/x` and `b/y` give exactly `[target/a, target/b]`,
  without the target.
- **Device write paths.** A device write's path has the target stripped. A
  file therefore lands at `/mods/<path in archive>`, while its directory is
  created at `/mods/<target>/<folder>` (`Planner.DevicePathOfFullPath`,
  `Staging.TwoFoldersWrites`).
- **No unknown-engine error.** An engine id that matches no engine is not an
  error. Launching does nothing, and an install extracts the archive
  directly.
- **Launch failures are swallowed.** A failed launch is logged and
  swallowed; it is not reported as an error. A launch is also not refused
  while a process is tracked: `launchFnf` simply replaces the pid.
- **The `psych` case is dead code.** The installer's switch names `psych`,
  but no engine has that id (`Tracker.PsychIdUnused`).
- **The mod name.** `replace('.zip', '')` removes the first ".zip", wherever
  it is (`Install.ModNameRemovesFirstOnly`).

## Model

| member | source | states |
|---|---|---|
| JsStrings.LastIndexOf | script.js:286 | the result is -1 exactly when the character is absent; otherwise it holds the character and none follows it |
| JsStrings.LastIndexOfAt | script.js:286 | a position holding the character with none after it is the one `lastIndexOf` finds |
| JsStrings.IndexOf | script.js:359 | the result is -1 exactly when the character is absent; otherwise it holds the character and none precedes it |
| JsStrings.IndexOfAt | script.js:359 | a position holding the character with none before it is the one `indexOf` finds |
| JsStrings.Prefix | script.js:286 | `substring(0, end)` has length `end` clamped into `[0, |s|]` and is a prefix of `s` |
| JsStrings.Split | script.js:359 | `split` yields at least one piece, more than one exactly when the separator occurs, and no piece contains the separator |
| JsStrings.JoinSplit | script.js:294 | joining the pieces of `split` with the separator gives back the original text |
| JsStrings.SplitCons | script.js:359 | text that starts with a separator-free piece splits into that piece, then the split of the rest |
| JsStrings.SplitJoin | script.js:359 | splitting the join of separator-free pieces gives back the pieces |
| JsStrings.IndexOfSub | script.js:346 | the result is -1 or an occurrence of the pattern, and no occurrence comes earlier |
| JsStrings.ReplaceFirst | script.js:346 | with no occurrence the text is unchanged; otherwise exactly the first occurrence is replaced, and the text is that prefix, the pattern and that suffix |
| JsStrings.StartsWith | script.js:338 | defines `startsWith`: the text is at least as long as the prefix and begins with it |
| JsStrings.EndsWith | script.js:256 | defines `endsWith`: the text is at least as long as the suffix and ends with it |
| JsStrings.EndsWithChar | script.js:300 | defines `endsWith` for one character: the text is non-empty and its last character is that one |
| JsStrings.IsJsWhitespace | script.js:294 | defines the characters `trim` removes: the ECMAScript white space and line terminators |
| JsStrings.IsBlank | script.js:294 | defines `trim() === ''`: every character of the text is one `trim` removes |
| Explorer.ParentPath | script.js:286 | the parent is the prefix before the last '/' when that prefix is non-empty, and "/" otherwise (no '/', or only a leading one); it is never empty and absolute when the path is |
| Explorer.ChildPath | script.js:302 | the child of "/" is "/" + name (no double slash); the child of an absolute path is absolute and ends with "/" + name |
| Explorer.ParentOfChild | script.js:286-302 | for a non-empty directory and a name without '/', the parent of the child is the directory |
| Explorer.ParentOfTopLevel | script.js:286 | the parent of a single-segment absolute path is "/" |
| Explorer.ItemName | script.js:297 | one trailing '/' is stripped when present; otherwise the line is the name |
| Explorer.EscapeQuotes | script.js:268 | a path without '"' is unchanged; every '"' in the result is preceded by a backslash; nothing is lost in length |
| Explorer.UnescapeEscape | script.js:268 | escaping is injective: reading the escaped path back gives the original |
| Explorer.NonBlankLines | script.js:294 | the kept lines are exactly the input lines that are not blank after `trim`, and none of them is blank |
| Explorer.NonBlankLinesAppend | script.js:294 | the filter distributes over concatenation, so kept lines stay in order and each is kept as often as it occurs |
| Explorer.NonBlankLinesUnit | script.js:294 | the filter keeps a single line iff it is not blank, and maps no lines to none |
| Explorer.ListingLines | script.js:294 | defines the listing's entries: the output split at every newline, the blank pieces filtered out; its properties are `JoinSplit` and the `NonBlankLines` lemmas |
| Explorer.ToItem | script.js:296-305 | defines one listing line's item: its name with one trailing '/' stripped, and for a line ending in '/' a directory whose click target is the child path; its properties are `DirItemNavigation` |
| Explorer.ExplorerNavigation | script.js:285-307 | the ".." entry is missing exactly at "/"; there is one item per non-blank listing line, and a directory item exactly for a line ending in '/'; from an absolute directory every navigation target is absolute and the parent of a listed child directory is the directory |
| Explorer.DirItemNavigation | script.js:300-302 | a directory line's target is absolute and leads back to the directory through ".." |
| Explorer.ExplorerView | script.js:285-307 | defines the view: ".." to the parent except at "/", then one item per kept line, a directory (whose target is the child path) for a line ending in '/' and a file otherwise; its properties are `ExplorerNavigation` |
| Planner.DirName | script.js:322 | the directory part is the prefix before the last '/', or "" when there is none |
| Planner.FullPath | script.js:318 | defines the full path: the target, a '/' and the path in the archive |
| Planner.Step | script.js:317-328 | defines one loop iteration: a directory entry adds its full path, a file entry adds its non-empty parent and appends its write; its properties are `StepDirs` and `StepFiles` |
| Planner.DirNameOfFullPath | script.js:318-322 | a file at the top of the archive has the target as directory; a nested file has the target + "/" + its own directory part |
| Planner.AddDir | script.js:320-323 | `Set.add` on the insertion-ordered set: a directory already present leaves it unchanged, a new one goes at the end; it stays duplicate-free |
| Planner.PlanEntries | script.js:314-329 | the planned directories are duplicate-free and there are no more writes than entries |
| Planner.CollectPlan | script.js:314-329 | the planning loop computes exactly `PlanEntries` |
| Planner.StepDirs | script.js:319-323 | one iteration adds exactly the directory its entry contributes |
| Planner.StepFiles | script.js:321-327 | one iteration appends a write exactly for a file entry |
| Planner.PlanDirsExact | script.js:313-329 | a directory is planned iff some entry contributes it: a directory entry's full path, or a file's non-empty immediate parent |
| Planner.PlanCoversParents | script.js:321-323 | every planned write's non-empty directory part is among the planned directories |
| Planner.FileEntries | script.js:319-321 | the file entries are exactly the entries that are not directories |
| Planner.FileEntriesAppend | script.js:317-321 | the filter distributes over concatenation, so file entries stay in enumeration order and each is kept as often as it occurs |
| Planner.FileEntriesSnoc | script.js:319-321 | one entry more at the end adds itself exactly when it is a file |
| Planner.FileEntriesUnit | script.js:319-321 | the filter keeps a single entry iff it is a file, and maps no entries to none |
| Planner.PlanFilesInOrder | script.js:317-327 | there is exactly one write per file entry, in enumeration order, to the entry's full path and with its content |
| Planner.DevicePathOfFullPath | script.js:338 | stripping the target from a full path leaves "/" + the path inside the archive |
| Planner.DevicePath | script.js:338 | defines the device path: the path with the target removed from its front when it starts with it; its property is `DevicePathOfFullPath` |
| Staging.MkdirsOf | script.js:332-333 | one `mkdir -p` per planned directory |
| Staging.MkdirArg | script.js:333 | defines the `mkdir -p` argument: "/mods" followed by the planned directory |
| Staging.FirstFailure | script.js:332-334 | every call before the returned index succeeds and the call at it fails |
| Staging.MkdirPhase | script.js:331-334 | the phase succeeds iff every `mkdir -p` of "/mods" + dir succeeds; it then issued all of them, and otherwise stopped right after the first failure |
| Staging.WriteCalls | script.js:337-340 | one device write per planned file |
| Staging.StageSucceedsIff | script.js:331-341 | staging succeeds iff every directory is created and every write of "/" + path-in-archive succeeds |
| Staging.StageCalls | script.js:331-341 | defines staging: the directory phase, and only when it succeeded all the device writes; its properties are `StageSucceedsIff`, `StageOrder`, `StageAfterDirs` and `StageWhenDirsFail` |
| Staging.StageOrder | script.js:331-341 | staging issues only `mkdir -p` runs and device writes; no `mkdir -p` follows a write; writes are issued only after every `mkdir -p` succeeded |
| Staging.StageAfterDirs | script.js:336-341 | once the directories exist, staging is the directory calls followed by all writes, and it succeeds iff every write does |
| Staging.StageWhenDirsFail | script.js:331-334 | a failed `mkdir -p` ends staging with no device write |
| Staging.ApplyWritesAppend | script.js:337-341 | applying two batches of calls in turn is applying their concatenation |
| Staging.ApplyWrites | script.js:339 | defines the device contents after a call log: each successful device write, in order, stores its content at its path; its properties are the lemmas below |
| Staging.ApplyNoWrites | script.js:331-334 | calls other than device writes leave the device unchanged |
| Staging.ApplyNoWritesAfter | script.js:387-389 | calls without device writes issued after others leave the device as the others left it |
| Staging.ReadBackLastWrite | script.js:339 | a successful write that no later write to the same path follows can be read back |
| Staging.UntouchedPathsKept | script.js:339-341 | a path that no successful write touches keeps its old content, or stays absent |
| Staging.FileEntriesDistinct | script.js:317 | distinct entry names stay distinct among the file entries |
| Staging.WriteCallOfEntry | script.js:337-339 | the k-th device write stores the k-th file entry at "/" + its path in the archive |
| Staging.StagedDevice | script.js:331-341 | after a successful staging the device is as the writes alone leave it |
| Staging.ReadBackEntry | script.js:337-341 | once all writes succeed, each file entry can be read back at "/" + its path |
| Staging.StagedFilesReadBack | script.js:313-342 | after a successful staging every file of the archive can be read from the device at "/" + its path in the archive, with its content |
| Staging.TwoFoldersDirs | script.js:318-323 | files `a/x` and `b/y` plan exactly `[target/a, target/b]`, without the target itself |
| Staging.TwoFoldersWrites | script.js:337-339 | the same files are written to "/a/x" and "/b/y", outside the directories created under the target |
| Staging.TwoFoldersSteps | script.js:317-329 | the plan of the two files, step by step |
| Staging.OneFolderPlan | script.js:317-329 | the plan of a single file `a/x` is the folder `target/a` and its write |
| Staging.OneFolderStep | script.js:321-327 | one file `a/x` adds the folder `target/a` and its write |
| Staging.TwoWrites | script.js:338-339 | the device writes of two planned files go to "/" + their names |
| RootDetect.DetectRoot | script.js:356-369 | no root exactly when no entry matches; otherwise the verdict is that of the first matching entry |
| RootDetect.MatchRoot | script.js:359-367 | defines one entry's verdict: a marker as second segment names the first segment as sub-folder, else a marker as first segment means top level, else none; its properties are `MatchRootOfSingle`, `MatchRootOfPair` and `MatchRootOfPath` |
| RootDetect.FindModRoot | script.js:356-369 | the scan loop with `break` computes `DetectRoot` |
| RootDetect.MatchRootOfSingle | script.js:359-364 | a name without '/' is top level iff it is a marker |
| RootDetect.MatchRootOfPair | script.js:359-367 | for two segments the second is consulted before the first ("data/images" names sub-folder "data") |
| RootDetect.MatchRootOfPath | script.js:359-367 | for longer names only the first two segments count |
| RootDetect.DetectRootAppend | script.js:358-369 | appending entries never changes a verdict already reached; without one, the verdict comes from what follows |
| RootDetect.DetectRootFirst | script.js:358-368 | a first entry with a verdict decides |
| RootDetect.MatchRootSubFolderExample | script.js:360-361 | "Pack/data/x.json" names sub-folder "Pack" |
| RootDetect.MatchRootTopLevelExample | script.js:364-365 | "images/a.png" means top level |
| RootDetect.DetectRootOrderSensitive | script.js:358-369 | the verdict depends on enumeration order |
| Tracker.FindEngine | script.js:91 | no engine is found iff no id matches; otherwise it is the first engine with that id |
| Tracker.EngineSelected | script.js:89 | defines the truthiness of the selected engine id: neither null nor "" |
| Tracker.PidTruthy | script.js:181 | defines the truthiness of the tracked pid: neither null nor 0 |
| Tracker.FindEngineAt | script.js:91 | an engine with the id and none earlier is the one found |
| Tracker.EngineIdsDistinct | script.js:16-77 | the engine table's ids are distinct |
| Tracker.VSliceLookup | script.js:23-28 | "vslice" finds the V-Slice engine and its executable path |
| Tracker.PsychIdUnused | script.js:378 | no engine has the id "psych" |
| Tracker.EngineToLaunch | script.js:89-95 | an engine is launched iff the runtime is up, an engine is selected (truthy id) and some engine has that id; it is the selected one |
| Tracker.LaunchCalls | script.js:88-102 | a launch issues at most one call, a background run of the engine's executable, exactly when there is an engine to launch |
| Tracker.PidAfterLaunch | script.js:98-108 | when an engine is launched and the start succeeds the pid becomes the new one; with no engine to launch or a failed start it is unchanged |
| Tracker.RestartCalls | script.js:179-190 | a kill of the tracked pid exactly when it is truthy, first, followed by the launch's calls; only kills and launches |
| Tracker.PidAfterRestart | script.js:179-190 | a successful launch leaves the new pid, whatever the old one; otherwise a truthy pid is cleared and a falsy pid (null or 0) stays |
| Tracker.RestartForgetsOldProcess | script.js:181-190 | after a restart with a truthy pid, the pid is the new process's on a successful launch and null otherwise |
| Tracker.PidZeroSurvivesRestart | script.js:181 | a pid of 0 is not killed and survives a failed launch |
| Install.ModName | script.js:346 | with no ".zip" the name is unchanged; otherwise it is four characters shorter |
| Install.ModTarget | script.js:347 | the target is "/" followed by the mod name |
| Install.ModNameOfZip | script.js:346-347 | a name without ".zip" followed by ".zip" gives that name back, and the target "/" + name |
| Install.ModNameAfterDotFree | script.js:346 | a ".zip" with no '.' before it is the one removed, whatever follows |
| Install.ModNameRemovesFirstOnly | script.js:346 | "my.zipper.zip" gives the mod name "myper.zip" |
| Install.ModTargetRemovesFirstOnly | script.js:347 | "my.zipper.zip" gives the target "/myper.zip" |
| Install.ClassifyDrop | script.js:224-262 | each outcome of a drop, as an iff on its conditions in the order the handler checks them |
| Install.ModsAlwaysReadyOnDrop | script.js:251-254 | when the runtime exists the mods device does, so the "not ready" refusal never happens |
| Install.EntriesToStage | script.js:352-385 | engines other than "vslice" stage the archive as it is; "vslice" fails with NoRootFound iff no entry matches, and otherwise stages the archive or the sub-folder view the first match names |
| Install.SelectEntries | script.js:352-385 | the dispatch computes `EntriesToStage` |
| Install.Names | script.js:358 | the keys `for…in` visits: one name per archive entry, in enumeration order |
| App.DroppedNames | script.js:230-256 | the names of `event.dataTransfer.files`, one per file in drop order, which the drop handler checks (the count, and `files[0].name` ending in ".zip") |
| App.ListCalls | script.js:267-273 | the browser lists the escaped path once when the runtime is up, and not otherwise |
| App.UploadTargets | script.js:236-240 | every dropped file is written, with its content, to the browsed directory + "/" + its name, and a plain name's parent is the browsed directory |
| App.UploadCalls | script.js:236-240 | one guest write per dropped file, in order; where each goes is `UploadTargets` |
| App.IssueUploads | script.js:236-243 | the upload loop issues exactly the uploads and reports success iff every write succeeded |
| App.InstallEntries | script.js:350-385 | an archive that does not decode fails with LoadFailed; otherwise the dispatch decides |
| App.InstallSpec | script.js:344-395 | defines an install: decode and choose the entries, stage them under the target, and only when staging succeeded list "/mods" and restart; its properties are the lemmas below |
| App.RestartOnlyAfterStaging | script.js:349-394 | an install succeeds iff its entries were chosen and staging succeeded; no kill or launch happens unless it succeeded |
| App.NoRootNoWrites | script.js:371-375 | V-Slice with no marker anywhere stops with NoRootFound, before any `mkdir -p` or write |
| App.InstallStopsEarly | script.js:350-375 | an install that fails before staging issues nothing |
| App.InstallStagingFailed | script.js:372-391 | an install whose staging failed issues only the staging calls and reports the failure |
| App.InstallSpecOnSuccess | script.js:383-389 | a successful staging is followed by the listing of "/mods" and the restart, and the install reports the mod name |
| App.InstallSucceeded | script.js:383-389 | after a successful install the device is as staging left it |
| App.FollowUpWritesNothing | script.js:388-389 | the listing and the restart write nothing to the device |
| App.InstalledFilesReadBack | script.js:344-395 | after a successful install every staged file can be read from the device at "/" + its path in the archive |
| App.IssueWrites | script.js:336-341 | the write loop issues exactly the plan's device writes, applies the successful ones to the device, and reports success iff all succeeded |
| App.Launcher.constructor | script.js:80-84 | no runtime, no mods device, no engine, browsing "/", no pid, nothing issued; the device holds what persisted |
| App.Launcher.LaunchFnf | script.js:88-109 | the new log and pid are those of `LaunchCalls` and `PidAfterLaunch`; the rest of the state is unchanged |
| App.Launcher.RestartFnfProcess | script.js:179-193 | the new log and pid are those of `RestartCalls` and `PidAfterRestart` |
| App.Launcher.RenderExplorer | script.js:266-311 | with the runtime up it lists the escaped path, shows its view and browses it; without it nothing changes |
| App.Launcher.StartEngine | script.js:111-177 | the engine is selected; the devices and runtime exist as far as start-up got; only a full start launches the game and shows the browsed directory |
| App.Launcher.MakeDirs | script.js:331-334 | the `mkdir -p` loop is `MkdirPhase` |
| App.Launcher.WriteAll | script.js:336-341 | the write phase issues `WriteCalls`, applies the successful writes to the device and succeeds iff all do |
| App.Launcher.ExtractAndWriteZip | script.js:313-342 | staging's calls, result and device contents are those of `StageCalls` over `PlanEntries` |
| App.Launcher.InstallMod | script.js:344-395 | the calls, result and device contents are those of `InstallSpec`; the pid and browser change only on success |
| App.Launcher.UploadToExplorer | script.js:233-249 | all uploads are issued; the browser is refreshed only when all succeed |
| App.Launcher.Drop | script.js:224-262 | the action is `ClassifyDrop`, never "mods device not ready"; an upload has exactly the effect of `UploadToExplorer` (uploads, the refresh only when all succeed, view, pid and device); an install has exactly the effect of `InstallMod` (calls, device contents, pid and view); any other action changes nothing |

## Left out

- CheerpX start-up (`startEngine`, script.js:121-166) is abstracted. The model
  does not include block and overlay devices, mounts, console and canvas
  set-up, the Xorg run or the network login. Only how far start-up got
  (`Boot`) is modelled, and the Xorg run is not in the call log.
- The DOM is not modelled: element lookups, engine cards, alerts, console
  text, list elements and drag events (script.js:4-14, 197-222, 281-309). The
  browser's view is modelled as a value (`Explorer.View`).
- Archive decoding (`JSZip.loadAsync`) and `zip.folder` are parameters
  (`archive`, `folderView`). The model makes no claim about whether the
  folder view strips the sub-folder prefix. Entry names are assumed
  distinct, as keys of `zip.files` are.
- `zipEntry.async` and `file.arrayBuffer` are not modelled. Entry and file
  contents are given as bytes and never fail to read.
- The concurrency of `Promise.all` (script.js:243, 341) is not modelled.
  - Writes are issued in list order, and every successful write is applied.
  - Which rejection surfaces first, and interleavings, are not modelled.
- Console capture around `ls` and `TextDecoder` (script.js:272-275) are not
  modelled. The output text, including the error texts, is the `listing`
  parameter.
- App.Launcher.UploadToExplorer: guest writes under `/mods` are not
  reflected in the device contents. Guest writes are logged but not applied
  to any file system.
- App.Launcher.RenderExplorer: the escaped path goes to `ls` as an argument,
  not through a shell, so a `"` reaches `ls` with its backslash. The model
  logs the escaped argument as the code passes it and states no claim about
  what `ls` does with it.
- `populateEngineSelector` and logging are presentation only and are not
  modelled.
- The enumeration order of `Object.entries` and `for … in` over `zip.files`
  is taken as given. It is the order of the `archive` sequence.
