/** Python's `str.splitlines(True)` and `str.rstrip()`, the two library calls
    the stream redirect relies on, written as functions on `string` together
    with the facts about them the redirect's contracts need. */
module PyStr {

  /** The characters `str.splitlines` breaks a line after: `\n`, `\r`, `\v`,
      `\f`, the file/group/record separators `\x1c`-`\x1e`, NEL `\x85`, and the
      Unicode line and paragraph separators U+2028 and U+2029. (`\r\n` is one
      boundary: SegmentEnd treats that pair as a unit.) */
  predicate IsLineBoundary(c: char) {
    c == '\n' || c == '\r' || c == '\U{0B}' || c == '\U{0C}'
    || c == '\U{1C}' || c == '\U{1D}' || c == '\U{1E}'
    || c == '\U{85}' || c == '\U{2028}' || c == '\U{2029}'
  }

  /** The characters `str.isspace` accepts, which `str.rstrip()` with no
      argument removes. */
  predicate IsWhitespace(c: char) {
    var n := c as int;
    (0x09 <= n <= 0x0D) || (0x1C <= n <= 0x20) || n == 0x85 || n == 0xA0
    || n == 0x1680 || (0x2000 <= n <= 0x200A) || n == 0x2028 || n == 0x2029
    || n == 0x202F || n == 0x205F || n == 0x3000
  }

  /** Index just past the first line boundary at or after `i` (two past a
      `\r\n` pair), or `|s|` if there is none. */
  function SegmentEnd(s: string, i: nat): (k: nat)
    requires i <= |s|
    ensures i <= k <= |s|
    ensures i < |s| ==> i < k
    ensures forall j :: i <= j < k - 1 ==> !IsLineBoundary(s[j]) || (j == k - 2 && s[j] == '\r' && s[k - 1] == '\n')
    ensures k < |s| ==> IsLineBoundary(s[k - 1])
    ensures k < |s| && s[k - 1] == '\r' ==> s[k] != '\n'
    decreases |s| - i
  {
    if i == |s| then |s|
    else if s[i] == '\r' && i + 1 < |s| && s[i + 1] == '\n' then i + 2
    else if IsLineBoundary(s[i]) then i + 1
    else SegmentEnd(s, i + 1)
  }

  /** Concatenation of a sequence of strings. */
  function Concat(lines: seq<string>): string {
    if lines == [] then "" else lines[0] + Concat(lines[1..])
  }

  /** A segment of `splitlines`: any line boundary in it is its last character,
      except for the `\r` of a final `\r\n`. */
  predicate BoundaryOnlyAtEnd(line: string) {
    forall j :: 0 <= j < |line| - 1 && IsLineBoundary(line[j]) ==> j == |line| - 2 && line[j] == '\r' && line[|line| - 1] == '\n'
  }

  /** `s.splitlines(True)`: the lines of `s`, each keeping its line boundary. */
  function SplitLines(s: string): (lines: seq<string>)
    ensures forall j :: 0 <= j < |lines| ==> lines[j] != [] && BoundaryOnlyAtEnd(lines[j])
    ensures forall j :: 0 <= j < |lines| - 1 ==> IsLineBoundary(lines[j][|lines[j]| - 1])
    ensures forall j :: 0 <= j < |lines| - 1 && lines[j][|lines[j]| - 1] == '\r' ==> lines[j + 1][0] != '\n'
    ensures Concat(lines) == s
    decreases |s|
  {
    if s == [] then []
    else
      var k := SegmentEnd(s, 0);
      assert s[..k] + s[k..] == s;
      [s[..k]] + SplitLines(s[k..])
  }

  /** `s.rstrip()`: `s` without its trailing whitespace. */
  function RStrip(s: string): (r: string)
    ensures r <= s
    ensures r == [] || !IsWhitespace(r[|r| - 1])
    ensures forall j :: |r| <= j < |s| ==> IsWhitespace(s[j])
    decreases |s|
  {
    if s != [] && IsWhitespace(s[|s| - 1]) then RStrip(s[..|s| - 1]) else s
  }

  /** A segment of `splitlines` that contains `'\n'` ends with it. */
  lemma NewlineEndsSegment(line: string)
    requires BoundaryOnlyAtEnd(line)
    requires '\n' in line
    ensures |line| > 0 && line[|line| - 1] == '\n'
  {
    var j :| 0 <= j < |line| && line[j] == '\n';
    if j < |line| - 1 {
      assert IsLineBoundary(line[j]);
    }
  }

  /** A text without line boundaries is one line of `splitlines` (none if empty). */
  lemma {:induction false} NoBoundarySingleLine(s: string)
    requires forall j :: 0 <= j < |s| ==> !IsLineBoundary(s[j])
    ensures SplitLines(s) == if s == [] then [] else [s]
  {
    if s != [] {
      NoBoundarySegmentEnd(s, 0);
      assert s[..|s|] == s && s[|s|..] == [];
      assert SplitLines(s[|s|..]) == [];
    }
  }

  lemma {:induction false} NoBoundarySegmentEnd(s: string, i: nat)
    requires i <= |s|
    requires forall j :: 0 <= j < |s| ==> !IsLineBoundary(s[j])
    ensures SegmentEnd(s, i) == |s|
    decreases |s| - i
  {
    if i < |s| {
      NoBoundarySegmentEnd(s, i + 1);
    }
  }
}
