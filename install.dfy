/** The decisions of an install, apart from its I/O: what a drop on the page
    asks for, the mod name and target directory derived from the archive's
    file name, and which entries the engine's strategy hands to the
    planner. */
module Install {
  import opened JsStrings
  import opened Planner
  import opened RootDetect

  /** `fileName.replace('.zip', '')`: the first ".zip" is removed, wherever
      it stands. */
  function ModName(fileName: string): (r: string)
    ensures IndexOfSub(fileName, ".zip") == -1 ==> r == fileName
    ensures IndexOfSub(fileName, ".zip") >= 0 ==> |r| == |fileName| - 4
  {
    ReplaceFirst(fileName, ".zip", "")
  }

  /** The mod's directory: "/" followed by the mod name. */
  function ModTarget(fileName: string): (r: string)
    ensures |r| >= 1 && r[0] == '/'
    ensures r[1..] == ModName(fileName)
  {
    "/" + ModName(fileName)
  }

  /** The first occurrence is the one at `i` when there is one at `i` and
      none before. */
  lemma IndexOfSubAt(s: string, pat: string, i: nat)
    requires OccursAt(s, pat, i)
    requires forall j: nat | j < i :: !OccursAt(s, pat, j)
    ensures IndexOfSub(s, pat) == i
  {
  }

  /** A file name that is a stem without ".zip" followed by ".zip" gives the
      stem back. ".zip" cannot straddle the stem and the suffix, because its
      only '.' is its first character. */
  lemma ModNameOfZip(stem: string)
    requires IndexOfSub(stem, ".zip") == -1
    ensures ModName(stem + ".zip") == stem
    ensures ModTarget(stem + ".zip") == "/" + stem
  {
    var s := stem + ".zip";
    var n := |stem|;
    assert s[n..n + 4] == ".zip";
    forall j: nat | j < n ensures !OccursAt(s, ".zip", j) {
      if j + 4 <= n {
        assert s[j..j + 4] == stem[j..j + 4];
        assert !OccursAt(stem, ".zip", j);
      } else {
        var w := s[j..j + 4];
        assert w[n - j] == s[n] == '.';
        assert 1 <= n - j <= 3;
      }
    }
    IndexOfSubAt(s, ".zip", n);
    assert s[..n] == stem;
    assert s[n + 4..] == [];
  }

  /** A ".zip" preceded by no '.' is the first one, so it is the one
      removed, whatever follows it. */
  lemma ModNameAfterDotFree(pre: string, post: string)
    requires '.' !in pre
    ensures ModName(pre + ".zip" + post) == pre + post
  {
    var s := pre + ".zip" + post;
    var n := |pre|;
    assert s[n..n + 4] == ".zip";
    forall j: nat | j < n ensures !OccursAt(s, ".zip", j) {
      assert s[j] == pre[j] != '.';
      if j + 4 <= |s| {
        assert s[j..j + 4][0] == s[j];
      }
    }
    IndexOfSubAt(s, ".zip", n);
    assert s[..n] == pre;
    assert s[n + 4..] == post;
  }

  /** Only the first ".zip" goes: "my.zipper.zip" installs as "myper.zip".
      The name is a parameter pinned by `requires` rather than a literal in
      the `ensures`, which keeps the solver from unfolding `ModName` on the
      literal character by character. */
  lemma ModNameRemovesFirstOnly(fileName: string)
    requires fileName == "my.zipper.zip"
    ensures ModName(fileName) == "myper.zip"
  {
    var pre, post := "my", "per.zip";
    assert fileName == pre + ".zip" + post;
    ModNameAfterDotFree(pre, post);
  }

  /** ... and into the directory "/myper.zip" (the name is a parameter for
      the same reason). */
  lemma ModTargetRemovesFirstOnly(fileName: string)
    requires fileName == "my.zipper.zip"
    ensures ModTarget(fileName) == "/myper.zip"
  {
    ModNameRemovesFirstOnly(fileName);
  }

  /** What a drop on the page leads to, in the order the handler checks. */
  datatype DropAction =
    /** No engine has been started: the drop is refused. */
    | NotStarted
    /** Nothing was dropped: nothing happens. */
    | NothingDropped
    /** Dropped on the file browser: every file is uploaded to the
        browsed directory. */
    | Upload
    /** The mods device is missing: the drop is refused. */
    | ModsNotReady
    /** The first file is not a ".zip": the drop is refused. */
    | NotAZip
    /** The first file is installed as a mod; the others are ignored. */
    | InstallFirst

  function ClassifyDrop(ready: bool, modsReady: bool, names: seq<string>, onExplorer: bool): (a: DropAction)
    ensures a == NotStarted <==> !ready
    ensures a == NothingDropped <==> ready && names == []
    ensures a == Upload <==> ready && names != [] && onExplorer
    ensures a == ModsNotReady <==> ready && names != [] && !onExplorer && !modsReady
    ensures a == NotAZip <==>
      ready && names != [] && !onExplorer && modsReady && !EndsWith(names[0], ".zip")
    ensures a == InstallFirst <==>
      ready && names != [] && !onExplorer && modsReady && EndsWith(names[0], ".zip")
  {
    if !ready then NotStarted
    else if names == [] then NothingDropped
    else if onExplorer then Upload
    else if !modsReady then ModsNotReady
    else if !EndsWith(names[0], ".zip") then NotAZip
    else InstallFirst
  }

  /** The runtime is only ever created after the mods device, so the "mods
      device not ready" refusal cannot happen. */
  lemma ModsAlwaysReadyOnDrop(ready: bool, modsReady: bool, names: seq<string>, onExplorer: bool)
    requires ready ==> modsReady
    ensures ClassifyDrop(ready, modsReady, names, onExplorer) != ModsNotReady
  {
  }

  datatype InstallError =
    /** The archive could not be decoded. */
    | LoadFailed
    /** V-Slice: no entry shows a marker folder. */
    | NoRootFound
    /** A `mkdir -p` or a device write failed. */
    | StagingFailed

  datatype Outcome<T> = Success(value: T) | Failure(error: InstallError)

  /** The names of the entries, in enumeration order. */
  function Names(zip: seq<Entry>): (ns: seq<string>)
    ensures |ns| == |zip| && forall k | 0 <= k < |zip| :: ns[k] == zip[k].name
  {
    seq(|zip|, k requires 0 <= k < |zip| => zip[k].name)
  }

  /** The entries the engine's strategy stages. Only "vslice" looks for the
      mod root, and the sub-folder's entries are what the archive library
      enumerates for that folder (`folderView`); every other engine, and no
      engine at all, stages the archive as it is. */
  function EntriesToStage(engine: Option<string>, zip: seq<Entry>, folderView: string -> seq<Entry>): (r: Outcome<seq<Entry>>)
    ensures engine != Some("vslice") ==> r == Success(zip)
    ensures r.Failure? <==>
      engine == Some("vslice") && forall k | 0 <= k < |zip| :: MatchRoot(zip[k].name).None?
    ensures r.Failure? ==> r.error == NoRootFound
    ensures engine == Some("vslice") && r.Success? ==>
      exists k | 0 <= k < |zip| ::
        && (forall j | 0 <= j < k :: MatchRoot(zip[j].name).None?)
        && match MatchRoot(zip[k].name)
           case Some(TopLevel) => r.value == zip
           case Some(SubFolder(n)) => r.value == folderView(n)
           case None => false
  {
    if engine != Some("vslice") then Success(zip)
    else
      var names := Names(zip);
      match DetectRoot(names)
      case None => Failure(NoRootFound)
      case Some(TopLevel) => Success(zip)
      case Some(SubFolder(n)) => Success(folderView(n))
  }

  /** The dispatch of `installMod`: "vslice" runs the root scan and takes
      the archive or the sub-folder it names; everything else takes the
      archive as it is. */
  method SelectEntries(engine: Option<string>, zip: seq<Entry>, folderView: string -> seq<Entry>)
    returns (r: Outcome<seq<Entry>>)
    ensures r == EntriesToStage(engine, zip, folderView)
  {
    if engine == Some("vslice") {
      var rootFolder := FindModRoot(Names(zip));
      match rootFolder {
        case None => r := Failure(NoRootFound);
        case Some(TopLevel) => r := Success(zip);
        case Some(SubFolder(name)) => r := Success(folderView(name));
      }
    } else {
      r := Success(zip);
    }
  }
}
