/** The JavaScript string operations the launcher relies on, written out over
    `seq<char>` with their ECMAScript meaning: `indexOf`, `lastIndexOf`,
    `substring(0, end)`, `split`, `replace` with a string pattern and the
    whitespace that `trim` removes. */
module JsStrings {

  datatype Option<+T> = None | Some(value: T)

  /** `s.endsWith(c)` for a one-character suffix. */
  predicate EndsWithChar(s: string, c: char) {
    |s| > 0 && s[|s| - 1] == c
  }

  /** `s.startsWith(p)`. */
  predicate StartsWith(s: string, p: string) {
    |p| <= |s| && s[..|p|] == p
  }

  /** `s.endsWith(p)`. */
  predicate EndsWith(s: string, p: string) {
    |p| <= |s| && s[|s| - |p|..] == p
  }

  /** `s.indexOf(c)` for a one-character search string: the first index
      holding `c`, or -1. */
  function IndexOf(s: string, c: char): (r: int)
    ensures -1 <= r < |s|
    ensures r == -1 <==> c !in s
    ensures r >= 0 ==> s[r] == c && c !in s[..r]
  {
    if |s| == 0 then -1
    else if s[0] == c then 0
    else
      var k := IndexOf(s[1..], c);
      if k < 0 then -1
      else
        assert s[..k + 1] == [s[0]] + s[1..][..k];
        k + 1
  }

  /** An index holding `c` with no `c` before it is the index of `c`. */
  lemma IndexOfAt(s: string, c: char, i: nat)
    requires i < |s| && s[i] == c && c !in s[..i]
    ensures IndexOf(s, c) == i
  {
    assert c in s by { assert s[i] == c; }
  }

  /** `s.lastIndexOf(c)` for a one-character search string: the last index
      holding `c`, or -1. */
  function LastIndexOf(s: string, c: char): (r: int)
    ensures -1 <= r < |s|
    ensures r == -1 <==> c !in s
    ensures r >= 0 ==> s[r] == c && c !in s[r + 1..]
  {
    if |s| == 0 then -1
    else if s[|s| - 1] == c then |s| - 1
    else
      var init := s[..|s| - 1];
      var r := LastIndexOf(init, c);
      assert s == init + [s[|s| - 1]];
      if r >= 0 then
        assert s[r + 1..] == init[r + 1..] + [s[|s| - 1]];
        r
      else r
  }

  /** An index holding `c` with no `c` after it is the last index of `c`. */
  lemma LastIndexOfAt(s: string, c: char, i: nat)
    requires i < |s| && s[i] == c && c !in s[i + 1..]
    ensures LastIndexOf(s, c) == i
  {
    assert c in s by { assert s[i] == c; }
  }

  /** `s.substring(0, end)`: JavaScript clamps `end` into `[0, |s|]`, so a
      negative end (such as the -1 of a failed search) gives "". */
  function Prefix(s: string, end: int): (r: string)
    ensures |r| == if end < 0 then 0 else if end > |s| then |s| else end
    ensures r == s[..|r|]
  {
    s[..if end < 0 then 0 else if end > |s| then |s| else end]
  }

  /** `s.split(sep)` for a one-character separator: every piece, empty
      pieces included, in order. */
  function Split(s: string, sep: char): (parts: seq<string>)
    ensures |parts| >= 1
    ensures |parts| > 1 <==> sep in s
    ensures forall k | 0 <= k < |parts| :: sep !in parts[k]
    decreases |s|
  {
    var i := IndexOf(s, sep);
    if i < 0 then [s] else [s[..i]] + Split(s[i + 1..], sep)
  }

  /** `parts.join(sep)`. */
  function Join(parts: seq<string>, sep: char): string
  {
    if |parts| == 0 then ""
    else if |parts| == 1 then parts[0]
    else parts[0] + [sep] + Join(parts[1..], sep)
  }

  /** Splitting and joining again gives back the original text. */
  lemma {:induction false} JoinSplit(s: string, sep: char)
    ensures Join(Split(s, sep), sep) == s
    decreases |s|
  {
    var i := IndexOf(s, sep);
    if i >= 0 {
      var head, tail := s[..i], s[i + 1..];
      assert s == head + [sep] + tail;
      SplitCons(head, sep, tail);
      var rest := Split(tail, sep);
      JoinSplit(tail, sep);
      var parts := [head] + rest;
      assert parts[0] == head && parts[1..] == rest;
      assert Join(parts, sep) == head + [sep] + Join(rest, sep);
    }
  }

  /** Text that starts with a separator-free piece splits into that piece
      followed by the split of what comes after the separator. */
  lemma SplitCons(head: string, sep: char, tail: string)
    requires sep !in head
    ensures Split(head + [sep] + tail, sep) == [head] + Split(tail, sep)
  {
    var s := head + [sep] + tail;
    assert s[|head|] == sep;
    assert s[..|head|] == head;
    IndexOfAt(s, sep, |head|);
    assert s[|head| + 1..] == tail;
    assert Split(s, sep) == [head] + Split(tail, sep);
  }

  /** Joining separator-free pieces and splitting again gives back the
      pieces. */
  lemma {:induction false} SplitJoin(parts: seq<string>, sep: char)
    requires |parts| >= 1
    requires forall k | 0 <= k < |parts| :: sep !in parts[k]
    ensures Split(Join(parts, sep), sep) == parts
  {
    if |parts| > 1 {
      var head, rest := parts[0], parts[1..];
      assert forall k | 0 <= k < |rest| :: rest[k] == parts[k + 1];
      SplitJoin(rest, sep);
      var tail := Join(rest, sep);
      assert Join(parts, sep) == head + [sep] + tail;
      SplitCons(head, sep, tail);
      assert parts == [head] + rest;
    } else {
      assert Join(parts, sep) == parts[0];
      assert Split(parts[0], sep) == [parts[0]];
    }
  }

  /** `pat` occurs in `s` starting at index `i`. */
  predicate OccursAt(s: string, pat: string, i: nat) {
    i + |pat| <= |s| && s[i..i + |pat|] == pat
  }

  /** `s.indexOf(pat, from)`: the first occurrence of `pat` at or after
      `from`, or -1. */
  function IndexOfSubFrom(s: string, pat: string, from: nat): (r: int)
    ensures r == -1 || (from <= r && OccursAt(s, pat, r))
    ensures forall j: nat | from <= j && (r == -1 || j < r) :: !OccursAt(s, pat, j)
    decreases |s| - from
  {
    if from + |pat| > |s| then -1
    else if OccursAt(s, pat, from) then from
    else IndexOfSubFrom(s, pat, from + 1)
  }

  /** `s.indexOf(pat)`. */
  function IndexOfSub(s: string, pat: string): (r: int)
    ensures r >= -1 && (r >= 0 ==> OccursAt(s, pat, r))
    ensures forall j: nat | r == -1 || j < r :: !OccursAt(s, pat, j)
  {
    IndexOfSubFrom(s, pat, 0)
  }

  /** `s.replace(pat, rep)` with a string pattern and a replacement without
      `$` patterns: only the FIRST occurrence of `pat` is replaced. */
  function ReplaceFirst(s: string, pat: string, rep: string): (r: string)
    ensures IndexOfSub(s, pat) == -1 ==> r == s
    ensures IndexOfSub(s, pat) >= 0 ==>
      var i := IndexOfSub(s, pat);
      r == s[..i] + rep + s[i + |pat|..] && s == s[..i] + pat + s[i + |pat|..]
  {
    var i := IndexOfSub(s, pat);
    if i < 0 then s
    else
      assert s[i..i + |pat|] == pat;
      assert s == s[..i] + s[i..i + |pat|] + s[i + |pat|..];
      s[..i] + rep + s[i + |pat|..]
  }

  /** The characters `String.prototype.trim` removes: the ECMAScript
      WhiteSpace and LineTerminator code points. */
  predicate IsJsWhitespace(c: char) {
    var n := c as int;
    n == 0x09 || n == 0x0A || n == 0x0B || n == 0x0C || n == 0x0D || n == 0x20
    || n == 0xA0 || n == 0x1680 || (0x2000 <= n <= 0x200A)
    || n == 0x2028 || n == 0x2029 || n == 0x202F || n == 0x205F
    || n == 0x3000 || n == 0xFEFF
  }

  /** `s.trim() === ''`: nothing but whitespace. */
  predicate IsBlank(s: string) {
    forall k | 0 <= k < |s| :: IsJsWhitespace(s[k])
  }
}
