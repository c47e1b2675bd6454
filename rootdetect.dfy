/** Where a V-Slice mod archive keeps its content: a first-match scan over
    the entry names, in enumeration order, for one of the marker folders. */
module RootDetect {
  import opened JsStrings

  /** The folder names that mark the root of a mod. */
  const Markers: set<string> := {"data", "images", "songs", "scripts"}

  datatype Root =
    /** The archive's own top level is the mod root. */
    | TopLevel
    /** The mod root is the named first-level folder. */
    | SubFolder(name: string)

  /** What one entry name says about the root: a marker as its second
      segment names its first segment as the root; failing that, a marker as
      its first segment means the top level. */
  function MatchRoot(name: string): Option<Root> {
    var parts := Split(name, '/');
    if |parts| > 1 && parts[1] in Markers then Some(SubFolder(parts[0]))
    else if parts[0] in Markers then Some(TopLevel)
    else None
  }

  /** The result of the scan: the verdict of the first entry that has one. */
  function DetectRoot(names: seq<string>): (r: Option<Root>)
    ensures r.None? <==> forall k | 0 <= k < |names| :: MatchRoot(names[k]).None?
    ensures r.Some? ==> exists k | 0 <= k < |names| ::
      && MatchRoot(names[k]) == r
      && forall j | 0 <= j < k :: MatchRoot(names[j]).None?
  {
    if names == [] then None
    else match MatchRoot(names[0])
      case Some(root) => Some(root)
      case None =>
        var r := DetectRoot(names[1..]);
        assert forall k | 1 <= k < |names| :: names[1..][k - 1] == names[k];
        if r.Some? then
          var k :| 0 <= k < |names[1..]| && MatchRoot(names[1..][k]) == r
            && forall j | 0 <= j < k :: MatchRoot(names[1..][j]).None?;
          assert MatchRoot(names[k + 1]) == r;
          r
        else r
  }

  /** The scan as the installer runs it: a loop over the entry names that
      stops at the first one with a verdict. */
  method FindModRoot(names: seq<string>) returns (root: Option<Root>)
    ensures root == DetectRoot(names)
  {
    root := None;
    var i := 0;
    while i < |names|
      invariant 0 <= i <= |names|
      invariant DetectRoot(names) == DetectRoot(names[i..])
    {
      var parts := Split(names[i], '/');
      if |parts| > 1 && parts[1] in Markers {
        root := Some(SubFolder(parts[0]));
        break;
      } else if parts[0] in Markers {
        root := Some(TopLevel);
        break;
      }
      assert names[i..][1..] == names[i + 1..];
      i := i + 1;
    }
    if root.None? {
      assert names[i..] == [];
    }
  }

  /** The verdict for an entry whose first two segments are known. */
  function SegmentVerdict(first: string, second: string): Option<Root> {
    if second in Markers then Some(SubFolder(first))
    else if first in Markers then Some(TopLevel) else None
  }

  /** A name without '/' is judged by itself alone. */
  lemma MatchRootOfSingle(first: string)
    requires '/' !in first
    ensures MatchRoot(first) == if first in Markers then Some(TopLevel) else None
  {
    assert Split(first, '/') == [first];
  }

  /** A name of two segments: the second is consulted before the first, so
      "data/images" names the sub-folder "data". */
  lemma MatchRootOfPair(first: string, second: string)
    requires '/' !in first && '/' !in second
    ensures MatchRoot(first + "/" + second) == SegmentVerdict(first, second)
  {
    SplitCons(first, '/', second);
    assert first + "/" + second == first + ['/'] + second;
    assert Split(first + "/" + second, '/') == [first, second];
  }

  /** A name of more segments: only the first two count. */
  lemma MatchRootOfPath(first: string, second: string, rest: string)
    requires '/' !in first && '/' !in second
    ensures MatchRoot(first + "/" + second + "/" + rest) == SegmentVerdict(first, second)
  {
    var name := first + "/" + second + "/" + rest;
    var tail := second + ['/'] + rest;
    assert name == first + ['/'] + tail;
    SplitCons(second, '/', rest);
    SplitCons(first, '/', tail);
    var parts := Split(name, '/');
    assert parts == [first] + ([second] + Split(rest, '/'));
    assert |parts| > 1 && parts[0] == first && parts[1] == second;
  }

  /** Appending entries never changes a verdict already reached, and an
      archive without one takes the verdict of what follows. */
  lemma {:induction false} DetectRootAppend(a: seq<string>, b: seq<string>)
    ensures DetectRoot(a + b) == if DetectRoot(a).Some? then DetectRoot(a) else DetectRoot(b)
  {
    if a != [] {
      assert (a + b)[0] == a[0];
      assert (a + b)[1..] == a[1..] + b;
      DetectRootAppend(a[1..], b);
    } else {
      assert a + b == b;
    }
  }

  /** The first entry decides whenever it has a verdict of its own. */
  lemma DetectRootFirst(a: string, b: string)
    requires MatchRoot(a).Some?
    ensures DetectRoot([a, b]) == MatchRoot(a)
  {
    assert [a, b][0] == a;
  }

  lemma MatchRootSubFolderExample()
    ensures MatchRoot("Pack/data/x.json") == Some(SubFolder("Pack"))
  {
    var pack, data, file := "Pack", "data", "x.json";
    MatchRootOfPath(pack, data, file);
    assert SegmentVerdict(pack, data) == Some(SubFolder("Pack"));
    var sub := pack + "/" + data + "/" + file;
    assert sub == "Pack/data/x.json";
  }

  lemma MatchRootTopLevelExample()
    ensures MatchRoot("images/a.png") == Some(TopLevel)
  {
    var images, png := "images", "a.png";
    MatchRootOfPair(images, png);
    assert SegmentVerdict(images, png) == Some(TopLevel);
    var top := images + "/" + png;
    assert top == "images/a.png";
  }

  /** The verdict depends on enumeration order: a marker sub-folder listed
      before a top-level marker wins, and the other way round. */
  lemma DetectRootOrderSensitive()
    ensures DetectRoot(["Pack/data/x.json", "images/a.png"]) == Some(SubFolder("Pack"))
    ensures DetectRoot(["images/a.png", "Pack/data/x.json"]) == Some(TopLevel)
  {
    MatchRootSubFolderExample();
    MatchRootTopLevelExample();
    DetectRootFirst("Pack/data/x.json", "images/a.png");
    DetectRootFirst("images/a.png", "Pack/data/x.json");
  }
}
