/** The path arithmetic of the directory browser and of the advanced-mode
    upload: going up, going into a child, the name shown for an `ls -F`
    line, the quote escaping of the listed path and the listing filter. */
module Explorer {
  import opened JsStrings

  predicate IsAbsolute(path: string) {
    |path| > 0 && path[0] == '/'
  }

  /** The ".." target: `path` cut at its last '/', or "/" when that cut is
      empty. */
  function ParentPath(path: string): (r: string)
    ensures r != ""
    ensures r == "/" || (|r| < |path| && r == path[..|r|] && path[|r|] == '/' && '/' !in path[|r| + 1..])
    ensures '/' !in path ==> r == "/"
    ensures LastIndexOf(path, '/') > 0 ==> r == path[..LastIndexOf(path, '/')]
    ensures LastIndexOf(path, '/') <= 0 ==> r == "/"
    ensures IsAbsolute(path) ==> IsAbsolute(r)
  {
    var cut := Prefix(path, LastIndexOf(path, '/'));
    if cut == "" then "/" else cut
  }

  /** The path of entry `name` inside directory `dir`; the root contributes
      no separator of its own, so there is never a double slash after it. */
  function ChildPath(dir: string, name: string): (r: string)
    ensures dir == "/" ==> r == "/" + name
    ensures IsAbsolute(dir) ==> IsAbsolute(r)
    ensures EndsWith(r, "/" + name)
  {
    (if dir == "/" then "" else dir) + "/" + name
  }

  /** Going into a child and then up returns to the directory. */
  lemma ParentOfChild(dir: string, name: string)
    requires dir != ""
    requires '/' !in name
    ensures ParentPath(ChildPath(dir, name)) == dir
  {
    var base := if dir == "/" then "" else dir;
    var child := ChildPath(dir, name);
    assert child == base + "/" + name;
    assert child[|base| + 1..] == name;
    LastIndexOfAt(child, '/', |base|);
    assert child[..|base|] == base;
  }

  /** A single-segment absolute path has the root as parent. */
  lemma ParentOfTopLevel(name: string)
    requires '/' !in name
    ensures ParentPath("/" + name) == "/"
  {
    ParentOfChild("/", name);
  }

  /** The name shown for a listing line: one trailing '/' (the mark `ls -F`
      puts on directories) is dropped. */
  function ItemName(line: string): (r: string)
    ensures EndsWithChar(line, '/') ==> r + "/" == line
    ensures !EndsWithChar(line, '/') ==> r == line
  {
    if EndsWithChar(line, '/') then line[..|line| - 1] else line
  }

  /** The path handed to `ls`, with every '"' preceded by a backslash. */
  function EscapeQuotes(s: string): (r: string)
    ensures '"' !in s ==> r == s
    ensures forall k | 0 <= k < |r| && r[k] == '"' :: k > 0 && r[k - 1] == '\\'
    ensures |r| >= |s|
  {
    if s == [] then []
    else (if s[0] == '"' then ['\\', '"'] else [s[0]]) + EscapeQuotes(s[1..])
  }

  /** Reads an escaped text back: a backslash followed by '"' stands for
      '"'; every other character stands for itself. */
  function UnescapeQuotes(s: string): string
    decreases |s|
  {
    if s == [] then []
    else if |s| >= 2 && s[0] == '\\' && s[1] == '"' then ['"'] + UnescapeQuotes(s[2..])
    else [s[0]] + UnescapeQuotes(s[1..])
  }

  /** Escaping loses nothing: the original path can be read back. */
  lemma {:induction false} UnescapeEscape(s: string)
    ensures UnescapeQuotes(EscapeQuotes(s)) == s
  {
    if s != [] {
      var rest := EscapeQuotes(s[1..]);
      UnescapeEscape(s[1..]);
      if s[0] == '"' {
        assert EscapeQuotes(s) == ['\\', '"'] + rest;
        assert (['\\', '"'] + rest)[2..] == rest;
      } else {
        assert EscapeQuotes(s) == [s[0]] + rest;
        assert ([s[0]] + rest)[1..] == rest;
        assert |rest| > 0 ==> rest[0] != '"';
      }
    }
  }

  /** The lines of a listing that are not blank once trimmed, in order. */
  function NonBlankLines(lines: seq<string>): (r: seq<string>)
    ensures forall k | 0 <= k < |r| :: !IsBlank(r[k])
    ensures forall x :: x in r <==> x in lines && !IsBlank(x)
    ensures |r| <= |lines|
  {
    if lines == [] then []
    else (if IsBlank(lines[0]) then [] else [lines[0]]) + NonBlankLines(lines[1..])
  }

  /** The filter distributes over concatenation: the kept lines stay in
      their order, each kept as often as it occurs. */
  lemma {:induction false} NonBlankLinesAppend(a: seq<string>, b: seq<string>)
    ensures NonBlankLines(a + b) == NonBlankLines(a) + NonBlankLines(b)
    decreases |a|
  {
    if a == [] {
      assert a + b == b;
    } else {
      assert (a + b)[0] == a[0];
      assert (a + b)[1..] == a[1..] + b;
      NonBlankLinesAppend(a[1..], b);
    }
  }

  /** The filter on no line and on one line; with `NonBlankLinesAppend` this
      determines it on every listing. */
  lemma NonBlankLinesUnit(line: string)
    ensures NonBlankLines([]) == []
    ensures NonBlankLines([line]) == if IsBlank(line) then [] else [line]
  {
  }

  /** The entries of an `ls -F` output: its lines, blank ones dropped. */
  function ListingLines(output: string): seq<string> {
    NonBlankLines(Split(output, '\n'))
  }

  datatype Item = DirItem(name: string, target: string) | FileItem(name: string)

  /** What the browser shows for a directory: the ".." target, absent at
      the root, and one item per listing line. */
  datatype View = View(up: Option<string>, items: seq<Item>)

  function ToItem(path: string, line: string): Item {
    var name := ItemName(line);
    if EndsWithChar(line, '/') then DirItem(name, ChildPath(path, name)) else FileItem(name)
  }

  function ExplorerView(path: string, output: string): View
  {
    var lines := ListingLines(output);
    View(if path != "/" then Some(ParentPath(path)) else None,
         seq(|lines|, k requires 0 <= k < |lines| => ToItem(path, lines[k])))
  }

  /** The view has a ".." entry everywhere but at the root and one item
      per listing line, a directory item exactly for a line marked with '/'.
      From an absolute directory every navigation target is absolute, and
      going into a listed directory and then up comes back. */
  lemma ExplorerNavigation(path: string, output: string)
    requires IsAbsolute(path)
    ensures var v := ExplorerView(path, output);
      && (v.up.None? <==> path == "/")
      && |v.items| == |ListingLines(output)|
      && (forall k | 0 <= k < |v.items| :: v.items[k].DirItem? <==> EndsWithChar(ListingLines(output)[k], '/'))
      && (v.up.Some? ==> IsAbsolute(v.up.value))
      && forall k | 0 <= k < |v.items| && v.items[k].DirItem? ::
           && IsAbsolute(v.items[k].target)
           && ('/' !in v.items[k].name ==> ParentPath(v.items[k].target) == path)
  {
    var v := ExplorerView(path, output);
    var lines := ListingLines(output);
    forall k | 0 <= k < |v.items| && v.items[k].DirItem?
      ensures IsAbsolute(v.items[k].target)
      ensures '/' !in v.items[k].name ==> ParentPath(v.items[k].target) == path
    {
      assert v.items[k] == ToItem(path, lines[k]);
      DirItemNavigation(path, lines[k]);
    }
  }

  /** One directory line of a listing, seen from an absolute directory. */
  lemma DirItemNavigation(path: string, line: string)
    requires IsAbsolute(path)
    requires ToItem(path, line).DirItem?
    ensures IsAbsolute(ToItem(path, line).target)
    ensures '/' !in ToItem(path, line).name ==> ParentPath(ToItem(path, line).target) == path
  {
    var name := ItemName(line);
    if '/' !in name {
      ParentOfChild(path, name);
    }
  }
}
