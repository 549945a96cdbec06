/** The parts of Python's `str` the parsers use: `strip`, `splitlines`, `join`, `split(sep, 1)`. */
module PyStrings {

  /** `str.isspace` for one character. */
  predicate IsBlank(c: char) {
    var n := c as int;
    || 9 <= n <= 13 || 28 <= n <= 32 || n == 0x85 || n == 0xA0 || n == 0x1680 || 0x2000 <= n <= 0x200A
    || n == 0x2028 || n == 0x2029 || n == 0x202F || n == 0x205F || n == 0x3000
  }

  /** The characters `str.splitlines` ends a line at. */
  predicate IsBreak(c: char) {
    var n := c as int;
    10 <= n <= 13 || 28 <= n <= 30 || n == 0x85 || n == 0x2028 || n == 0x2029
  }

  /** The same characters one by one. */
  lemma BlanksAndBreaks(c: char)
    ensures
      var blanks := {9, 10, 11, 12, 13, 28, 29, 30, 31, 32, 133, 160, 5760, 8192, 8193, 8194, 8195, 8196, 8197, 8198,
                     8199, 8200, 8201, 8202, 8232, 8233, 8239, 8287, 12288};
      IsBlank(c) <==> c as int in blanks
    ensures IsBreak(c) <==> c as int in {10, 11, 12, 13, 28, 29, 30, 133, 8232, 8233}
  {}

  predicate OneLine(s: string) {
    forall i :: 0 <= i < |s| ==> !IsBreak(s[i])
  }

  // ------------------------------------------------------------ strip

  /** The first position from `i` on that is not blank, or the length. */
  function SkipBlanks(s: string, i: nat): (n: nat)
    requires i <= |s|
    ensures i <= n <= |s| && (n < |s| ==> !IsBlank(s[n]))
    decreases |s| - i
  {
    if i < |s| && IsBlank(s[i]) then SkipBlanks(s, i + 1) else i
  }

  /** The end of `s[..n]` without its trailing blanks. */
  function DropBlanks(s: string, n: nat): (m: nat)
    requires n <= |s|
    ensures m <= n && (m > 0 ==> !IsBlank(s[m - 1]))
  {
    if n > 0 && IsBlank(s[n - 1]) then DropBlanks(s, n - 1) else n
  }

  function StripLeft(s: string): string {
    s[SkipBlanks(s, 0)..]
  }

  function StripRight(s: string): string {
    s[..DropBlanks(s, |s|)]
  }

  function Strip(s: string): string {
    StripRight(StripLeft(s))
  }

  predicate StartsWell(s: string) {
    s == [] || !IsBlank(s[0])
  }

  predicate EndsWell(s: string) {
    s == [] || !IsBlank(s[|s| - 1])
  }

  predicate Stripped(s: string) {
    StartsWell(s) && EndsWell(s)
  }

  lemma StripLeftStarts(s: string)
    ensures StartsWell(StripLeft(s)) && (StartsWell(s) ==> StripLeft(s) == s)
  {}

  lemma StripRightEnds(s: string)
    ensures EndsWell(StripRight(s)) && (EndsWell(s) ==> StripRight(s) == s)
    ensures StartsWell(s) ==> StartsWell(StripRight(s))
  {}

  lemma StripIsStripped(s: string)
    ensures Stripped(Strip(s))
    ensures Stripped(s) ==> Strip(s) == s
  {
    StripLeftStarts(s);
    StripRightEnds(StripLeft(s));
  }

  lemma StripKeepsLine(s: string)
    requires OneLine(s)
    ensures OneLine(Strip(s))
  {
    var skip := SkipBlanks(s, 0);
    assert forall i :: 0 <= i < |s| - skip ==> StripLeft(s)[i] == s[skip + i];
  }

  lemma {:induction false} SkipAcross(s: string, t: string, i: nat)
    requires i <= |s| && t != [] && StartsWell(t)
    ensures SkipBlanks(s + t, i) == SkipBlanks(s, i)
    decreases |s| - i
  {
    if i < |s| && IsBlank(s[i]) {
      SkipAcross(s, t, i + 1);
    }
  }

  /** Stripping `s + t`, when `t` has blanks at neither end. */
  lemma StripBefore(s: string, t: string)
    requires t != [] && Stripped(t)
    ensures Strip(s + t) == StripLeft(s) + t
  {
    SkipAcross(s, t, 0);
    assert StripLeft(s + t) == StripLeft(s) + t;
    StripRightEnds(StripLeft(s) + t);
  }

  lemma StripLeftFirst(s: string)
    ensures Strip(StripLeft(s)) == Strip(s)
  {
    StripLeftStarts(s);
    StripLeftStarts(StripLeft(s));
  }

  // ------------------------------------------------------------ startswith, find

  predicate StartsWith(s: string, prefix: string) {
    prefix == [] || (s != [] && s[0] == prefix[0] && StartsWith(s[1..], prefix[1..]))
  }

  ghost predicate OccursAt(s: string, part: string, i: nat) {
    i + |part| <= |s| && s[i..i + |part|] == part
  }

  lemma {:induction false} StartsWithIff(s: string, prefix: string)
    ensures StartsWith(s, prefix) <==> OccursAt(s, prefix, 0)
  {
    if prefix != [] && OccursAt(s, prefix, 0) {
      assert s[0] == s[0..|prefix|][0];
    }
    if prefix != [] && s != [] && s[0] == prefix[0] {
      StartsWithIff(s[1..], prefix[1..]);
      if OccursAt(s[1..], prefix[1..], 0) {
        assert s[..|prefix|] == [s[0]] + s[1..][..|prefix| - 1];
        assert prefix == [prefix[0]] + prefix[1..];
      }
      if OccursAt(s, prefix, 0) {
        assert s[1..][..|prefix| - 1] == s[..|prefix|][1..];
      }
    }
  }

  /** A text without a blank at its head keeps the head when stripped. */
  lemma StripKeepsHead(s: string)
    requires s != [] && !IsBlank(s[0])
    ensures Strip(s) != [] && Strip(s)[0] == s[0]
  {
    StripLeftStarts(s);
    SolidHeadStays(s, |s|);
  }

  lemma {:induction false} SolidHeadStays(s: string, n: nat)
    requires 0 < n <= |s| && !IsBlank(s[0])
    ensures DropBlanks(s, n) > 0
  {
    if n > 1 && IsBlank(s[n - 1]) {
      SolidHeadStays(s, n - 1);
    }
  }

  /** The first position of a character, or the length of the text. */
  function IndexOf(s: string, c: char): (i: nat)
    ensures i <= |s| && c !in s[..i]
    ensures i < |s| ==> s[i] == c
    ensures i == |s| <==> c !in s
  {
    if s == [] || s[0] == c then 0 else 1 + IndexOf(s[1..], c)
  }

  lemma {:induction false} IndexAfter(s: string, c: char, t: string)
    requires c !in s
    ensures IndexOf(s + [c] + t, c) == |s|
  {
    if s != [] {
      IndexAfter(s[1..], c, t);
      assert (s + [c] + t)[1..] == s[1..] + [c] + t;
    }
  }

  // ------------------------------------------------------------ splitlines

  /** Where the line starting at `i` ends. */
  function LineEnd(s: string, i: nat): (n: nat)
    requires i <= |s|
    ensures i <= n <= |s| && OneLine(s[i..n])
    ensures n < |s| ==> IsBreak(s[n])
    decreases |s| - i
  {
    if i < |s| && !IsBreak(s[i]) then LineEnd(s, i + 1) else i
  }

  /** A carriage return and a line feed make one break. */
  function AfterBreak(s: string, n: nat): (k: nat)
    requires n < |s|
    ensures n < k <= |s|
  {
    if s[n] == '\r' && n + 1 < |s| && s[n + 1] == '\n' then n + 2 else n + 1
  }

  function SplitLines(s: string): seq<string> {
    if s == [] then []
    else
      var n := LineEnd(s, 0);
      if n == |s| then [s] else [s[..n]] + SplitLines(s[AfterBreak(s, n)..])
  }

  /** `"\n".join`. */
  function JoinLines(lines: seq<string>): string {
    if lines == [] then ""
    else if |lines| == 1 then lines[0]
    else lines[0] + ['\n'] + JoinLines(lines[1..])
  }

  predicate AllOneLine(lines: seq<string>) {
    forall i :: 0 <= i < |lines| ==> OneLine(lines[i])
  }

  lemma {:induction false} SplitGivesLines(s: string)
    ensures AllOneLine(SplitLines(s))
  {
    if s != [] {
      var n := LineEnd(s, 0);
      assert s[0..n] == s[..n];
      if n < |s| {
        SplitGivesLines(s[AfterBreak(s, n)..]);
      }
    }
  }

  lemma {:induction false} LineEndAt(s: string, i: nat, n: nat)
    requires i <= n <= |s| && (forall k :: i <= k < n ==> !IsBreak(s[k])) && (n < |s| ==> IsBreak(s[n]))
    ensures LineEnd(s, i) == n
    decreases n - i
  {
    if i < n {
      LineEndAt(s, i + 1, n);
    }
  }

  lemma SplitOne(line: string)
    requires OneLine(line) && line != []
    ensures SplitLines(line) == [line]
  {
    LineEndAt(line, 0, |line|);
  }

  lemma SplitFirst(line: string, rest: string)
    requires OneLine(line)
    ensures SplitLines(line + ['\n'] + rest) == [line] + SplitLines(rest)
  {
    assert IsBreak('\n');
    var s := line + ['\n'] + rest;
    LineEndAt(s, 0, |line|);
    assert s[..|line|] == line && s[|line| + 1..] == rest;
  }

  /** Any break ends a line. */
  lemma SplitAtBreak(line: string, c: char, rest: string)
    requires OneLine(line) && IsBreak(c) && (c != '\r' || rest == [] || rest[0] != '\n')
    ensures SplitLines(line + [c] + rest) == [line] + SplitLines(rest)
  {
    var s := line + [c] + rest;
    LineEndAt(s, 0, |line|);
    assert AfterBreak(s, |line|) == |line| + 1;
    assert s[..|line|] == line && s[|line| + 1..] == rest;
  }

  /** A carriage return and a line feed end one line together. */
  lemma SplitAtCrLf(line: string, rest: string)
    requires OneLine(line)
    ensures SplitLines(line + ['\r', '\n'] + rest) == [line] + SplitLines(rest)
  {
    var s := line + ['\r', '\n'] + rest;
    assert IsBreak('\r') && s[|line|] == '\r' && s[|line| + 1] == '\n';
    LineEndAt(s, 0, |line|);
    assert s[..|line|] == line && s[|line| + 2..] == rest;
  }

  /** Joined lines split back, but for a last line that is empty. */
  lemma {:induction false} SplitJoined(lines: seq<string>)
    requires AllOneLine(lines) && (lines != [] ==> lines[|lines| - 1] != [])
    ensures SplitLines(JoinLines(lines)) == lines
  {
    if |lines| == 1 {
      SplitOne(lines[0]);
    } else if lines != [] {
      SplitJoined(lines[1..]);
      SplitFirst(lines[0], JoinLines(lines[1..]));
    }
  }

  /** With a final newline every line splits back. */
  lemma {:induction false} SplitTerminated(lines: seq<string>)
    requires AllOneLine(lines) && lines != []
    ensures SplitLines(JoinLines(lines) + ['\n']) == lines
  {
    if |lines| == 1 {
      SplitFirst(lines[0], []);
      assert lines[0] + ['\n'] + [] == lines[0] + ['\n'];
    } else {
      SplitTerminated(lines[1..]);
      SplitFirst(lines[0], JoinLines(lines[1..]) + ['\n']);
      assert JoinLines(lines) + ['\n'] == lines[0] + ['\n'] + (JoinLines(lines[1..]) + ['\n']);
    }
  }
}
