/** The Python `str` operations that src/file.py and src/event.py rely on:
    `str.isspace` (which is also the set `\s` matches in a `str` pattern),
    `str.strip()` and `str.splitlines()`. */
module PyText {

  /** `c.isspace()`: the characters of Unicode category Zs or of bidirectional
      class WS, B or S. */
  predicate IsPySpace(c: char) {
    var n := c as int;
    (0x09 <= n <= 0x0D) || (0x1C <= n <= 0x20) || n == 0x85 || n == 0xA0 || n == 0x1680 ||
    (0x2000 <= n <= 0x200A) || n == 0x2028 || n == 0x2029 || n == 0x202F || n == 0x205F || n == 0x3000
  }

  /** A line boundary of `str.splitlines` (`\r\n` counts as one, see `BoundaryWidth`). */
  predicate IsLineBoundary(c: char) {
    var n := c as int;
    (0x0A <= n <= 0x0D) || (0x1C <= n <= 0x1E) || n == 0x85 || n == 0x2028 || n == 0x2029
  }

  predicate NoBoundary(s: string) {
    forall j :: 0 <= j < |s| ==> !IsLineBoundary(s[j])
  }

  /** Neither end of `s` is whitespace: `strip()` leaves it as it is. */
  predicate IsStripped(s: string) {
    s == [] || (!IsPySpace(s[0]) && !IsPySpace(s[|s| - 1]))
  }

  /** `s.lstrip()`. */
  function StripStart(s: string): (r: string)
    ensures |r| <= |s| && r == s[|s| - |r|..]
    ensures forall i :: 0 <= i < |s| - |r| ==> IsPySpace(s[i])
    ensures r != [] ==> !IsPySpace(r[0])
  {
    if s != [] && IsPySpace(s[0]) then StripStart(s[1..]) else s
  }

  /** `s.rstrip()`. */
  function StripEnd(s: string): (r: string)
    ensures |r| <= |s| && r == s[..|r|]
    ensures forall i :: |r| <= i < |s| ==> IsPySpace(s[i])
    ensures r != [] ==> !IsPySpace(r[|r| - 1])
  {
    if s != [] && IsPySpace(s[|s| - 1]) then StripEnd(s[..|s| - 1]) else s
  }

  /** `s.strip()`: the longest stretch of `s` that neither starts nor ends with
      whitespace; empty exactly when `s` is all whitespace. */
  function Strip(s: string): (r: string)
    ensures IsStripped(r)
    ensures r == [] <==> forall i :: 0 <= i < |s| ==> IsPySpace(s[i])
    ensures IsStripped(s) ==> r == s
  {
    var t := StripStart(s);
    var r := StripEnd(t);
    assert r != [] ==> r[0] == t[0];
    assert forall i :: 0 <= i < |t| ==> t[i] == s[|s| - |t| + i];
    r
  }

  /** The index of the first line boundary, or `|s|` when there is none. */
  function FirstBoundary(s: string): (k: nat)
    ensures k <= |s| && NoBoundary(s[..k])
    ensures k < |s| ==> IsLineBoundary(s[k])
  {
    if s == [] || IsLineBoundary(s[0]) then 0
    else
      var k := 1 + FirstBoundary(s[1..]);
      assert forall j :: 1 <= j < k ==> s[..k][j] == s[1..][..k - 1][j - 1];
      k
  }

  /** A boundary right after boundary-free text is the first one. */
  lemma {:induction false} FirstBoundaryAfter(a: string, rest: string)
    requires NoBoundary(a) && rest != [] && IsLineBoundary(rest[0])
    ensures FirstBoundary(a + rest) == |a|
  {
    var s := a + rest;
    assert s[|a|] == rest[0];
    assert forall j :: 0 <= j < |a| ==> s[j] == a[j];
  }

  /** `\r\n` is one boundary; every other boundary is a single character. */
  function BoundaryWidth(s: string, k: nat): nat
    requires k < |s|
  {
    if s[k] == '\r' && k + 1 < |s| && s[k + 1] == '\n' then 2 else 1
  }

  /** `s.splitlines()`: the lines without their boundaries, with no empty
      line after a final boundary. */
  function SplitLines(s: string): (r: seq<string>)
    ensures r == [] <==> s == []
    ensures forall i :: 0 <= i < |r| ==> NoBoundary(r[i])
    decreases |s|
  {
    if s == [] then []
    else
      var k := FirstBoundary(s);
      if k == |s| then
        assert s[..k] == s;
        [s]
      else [s[..k]] + SplitLines(s[k + BoundaryWidth(s, k)..])
  }

  /** One line and the lines after it. */
  lemma {:induction false} SplitLinesCons(a: string, boundary: string, rest: string)
    requires NoBoundary(a)
    requires boundary == "\n" || boundary == "\r\n"
    ensures SplitLines(a + boundary + rest) == [a] + SplitLines(rest)
  {
    var s := a + boundary + rest;
    assert s == a + (boundary + rest);
    FirstBoundaryAfter(a, boundary + rest);
    assert s[..|a|] == a;
    assert s[|a| + |boundary|..] == rest;
  }

  /** Each line followed by `\n`, the way a file of paths is written. */
  function Terminated(lines: seq<string>): string {
    if lines == [] then [] else lines[0] + "\n" + Terminated(lines[1..])
  }

  /** Writing boundary-free lines one per line and reading them back with
      `splitlines` gives the lines back. */
  lemma {:induction false} SplitLinesTerminated(lines: seq<string>)
    requires forall i :: 0 <= i < |lines| ==> NoBoundary(lines[i])
    ensures SplitLines(Terminated(lines)) == lines
  {
    if lines != [] {
      SplitLinesTerminated(lines[1..]);
      SplitLinesCons(lines[0], "\n", Terminated(lines[1..]));
    }
  }
}
