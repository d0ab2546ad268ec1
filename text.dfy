/**
 * The string primitives the response parser relies on: Python's `str.strip()`,
 * `str.split("\n")` and the search for the first colon behind `line.split(":", 1)`.
 */
module Text {

  /** The whitespace `str.strip()` removes, restricted to ASCII: space, tab, line feed,
      carriage return, vertical tab and form feed. */
  predicate IsSpace(c: char) {
    c == ' ' || c == '\t' || c == '\n' || c == '\r' || c == '\U{0B}' || c == '\U{0C}'
  }

  predicate AllSpace(s: string) {
    forall i :: 0 <= i < |s| ==> IsSpace(s[i])
  }

  /** `s.lstrip()`: the longest suffix of `s` that does not start with whitespace. */
  function StripLeft(s: string): string {
    if |s| > 0 && IsSpace(s[0]) then StripLeft(s[1..]) else s
  }

  /** StripLeft drops a whitespace prefix and no more. */
  lemma {:induction false} StripLeftShape(s: string)
    ensures |StripLeft(s)| <= |s| && StripLeft(s) == s[|s| - |StripLeft(s)|..]
    ensures AllSpace(s[..|s| - |StripLeft(s)|])
    ensures StripLeft(s) == [] || !IsSpace(StripLeft(s)[0])
  {
    if |s| > 0 && IsSpace(s[0]) {
      StripLeftShape(s[1..]);
      var n := |s| - |StripLeft(s)|;
      assert s[..n] == [s[0]] + s[1..][..n - 1];
    }
  }

  /** `s.rstrip()`: the longest prefix of `s` that does not end with whitespace. */
  function StripRight(s: string): string {
    if |s| > 0 && IsSpace(s[|s| - 1]) then StripRight(s[..|s| - 1]) else s
  }

  /** StripRight drops a whitespace suffix and no more. */
  lemma {:induction false} StripRightShape(s: string)
    ensures |StripRight(s)| <= |s| && StripRight(s) == s[..|StripRight(s)|]
    ensures AllSpace(s[|StripRight(s)|..])
    ensures StripRight(s) == [] || !IsSpace(StripRight(s)[|StripRight(s)| - 1])
  {
    if |s| > 0 && IsSpace(s[|s| - 1]) {
      StripRightShape(s[..|s| - 1]);
      var n := |StripRight(s)|;
      assert s[n..] == s[..|s| - 1][n..] + [s[|s| - 1]];
    }
  }

  /** `s.strip()`. */
  function Strip(s: string): string {
    StripRight(StripLeft(s))
  }

  /** The stripped text is a slice of the input with whitespace on both sides of it,
      and it neither starts nor ends with whitespace. */
  lemma StripShape(s: string)
    ensures exists i :: 0 <= i <= |s| - |Strip(s)| && Strip(s) == s[i..i + |Strip(s)|]
                        && AllSpace(s[..i]) && AllSpace(s[i + |Strip(s)|..])
    ensures Strip(s) == [] || (!IsSpace(Strip(s)[0]) && !IsSpace(Strip(s)[|Strip(s)| - 1]))
  {
    StripLeftShape(s);
    var l := StripLeft(s);
    StripRightShape(l);
    var r := Strip(s);
    var i := |s| - |l|;
    assert r == s[i..i + |r|];
    assert s[i + |r|..] == l[|r|..];
    if r != [] {
      assert r[0] == l[0];
    }
  }

  /** Strip removes exactly the whitespace padding around a core that has none at its ends. */
  lemma {:induction false} StripPadded(w1: string, core: string, w2: string)
    requires AllSpace(w1) && AllSpace(w2)
    requires core == [] || (!IsSpace(core[0]) && !IsSpace(core[|core| - 1]))
    ensures Strip(w1 + core + w2) == core
  {
    if core == [] {
      assert w1 + core + w2 == w1 + w2;
      assert AllSpace(w1 + w2);
      StripLeftShape(w1 + w2);
      var l := StripLeft(w1 + w2);
    } else {
      assert w1 + core + w2 == w1 + (core + w2);
      StripLeftPadded(w1, core + w2);
      StripRightPadded(core, w2);
    }
  }

  lemma {:induction false} StripLeftPadded(w: string, rest: string)
    requires AllSpace(w)
    requires rest == [] || !IsSpace(rest[0])
    ensures StripLeft(w + rest) == rest
  {
    if w != [] {
      assert (w + rest)[1..] == w[1..] + rest;
      StripLeftPadded(w[1..], rest);
    } else {
      assert w + rest == rest;
    }
  }

  lemma {:induction false} StripRightPadded(core: string, w: string)
    requires AllSpace(w)
    requires core == [] || !IsSpace(core[|core| - 1])
    ensures StripRight(core + w) == core
  {
    if w != [] {
      assert (core + w)[..|core + w| - 1] == core + w[..|w| - 1];
      StripRightPadded(core, w[..|w| - 1]);
    } else {
      assert core + w == core;
    }
  }

  /** Stripping twice is stripping once. */
  lemma StripIdempotent(s: string)
    ensures Strip(Strip(s)) == Strip(s)
  {
    StripShape(s);
    var r := Strip(s);
    assert r == [] + r + [];
    StripPadded([], r, []);
  }

  /** A string that holds `c` only if some character of it is `c`. */
  predicate Contains(s: string, c: char) {
    exists i :: 0 <= i < |s| && s[i] == c
  }

  /** `text.split("\n")`: the pieces between line feeds, always at least one. */
  function SplitLines(s: string): (lines: seq<string>)
    ensures |lines| >= 1
    ensures forall k :: 0 <= k < |lines| ==> '\n' !in lines[k]
  {
    if s == [] then [""]
    else if s[0] == '\n' then [""] + SplitLines(s[1..])
    else
      var tail := SplitLines(s[1..]);
      [[s[0]] + tail[0]] + tail[1..]
  }

  /** `"\n".join(lines)`, the inverse of SplitLines. */
  function JoinLines(lines: seq<string>): string
    requires |lines| >= 1
  {
    if |lines| == 1 then lines[0] else lines[0] + "\n" + JoinLines(lines[1..])
  }

  /** Splitting loses nothing: joining the pieces with line feeds gives the text back. */
  lemma {:induction false} JoinSplitLines(s: string)
    ensures JoinLines(SplitLines(s)) == s
  {
    if s == [] {
    } else if s[0] == '\n' {
      JoinSplitLines(s[1..]);
      var tail := SplitLines(s[1..]);
      assert SplitLines(s)[1..] == tail;
    } else {
      JoinSplitLines(s[1..]);
      var tail := SplitLines(s[1..]);
      var lines := SplitLines(s);
      assert lines[1..] == tail[1..];
      if |tail| == 1 {
        assert JoinLines(lines) == [s[0]] + tail[0];
      } else {
        assert JoinLines(tail) == tail[0] + "\n" + JoinLines(tail[1..]);
        assert JoinLines(lines) == ([s[0]] + tail[0]) + "\n" + JoinLines(tail[1..]);
      }
      assert s == [s[0]] + s[1..];
    }
  }

  /** A text without line feeds is a single line. */
  lemma {:induction false} SplitSingleLine(s: string)
    requires '\n' !in s
    ensures SplitLines(s) == [s]
  {
    if s != [] {
      assert '\n' !in s[1..];
      SplitSingleLine(s[1..]);
      assert s == [s[0]] + s[1..];
    }
  }

  /** A line without line feeds followed by a line feed starts a new line. */
  lemma {:induction false} SplitFirstLine(a: string, b: string)
    requires '\n' !in a
    ensures SplitLines(a + "\n" + b) == [a] + SplitLines(b)
  {
    if a == [] {
      assert a + "\n" + b == "\n" + b;
      assert ("\n" + b)[1..] == b;
    } else {
      assert (a + "\n" + b)[1..] == a[1..] + "\n" + b;
      assert '\n' !in a[1..];
      SplitFirstLine(a[1..], b);
      assert a == [a[0]] + a[1..];
    }
  }

  /** Splitting undoes joining lines that hold no line feed. */
  lemma {:induction false} SplitJoinLines(lines: seq<string>)
    requires |lines| >= 1
    requires forall k :: 0 <= k < |lines| ==> '\n' !in lines[k]
    ensures SplitLines(JoinLines(lines)) == lines
  {
    if |lines| == 1 {
      SplitSingleLine(lines[0]);
    } else {
      SplitJoinLines(lines[1..]);
      SplitFirstLine(lines[0], JoinLines(lines[1..]));
      assert lines == [lines[0]] + lines[1..];
    }
  }

  /** Every character of every line comes from the text. */
  lemma {:induction false} SplitLinesChars(s: string, c: char)
    requires c !in s
    ensures forall k :: 0 <= k < |SplitLines(s)| ==> c !in SplitLines(s)[k]
  {
    if s != [] {
      assert c !in s[1..];
      SplitLinesChars(s[1..], c);
    }
  }

  /** Index of the first colon of a line that holds one. */
  function FirstColon(line: string): (i: nat)
    requires ':' in line
    ensures i < |line| && line[i] == ':'
    ensures ':' !in line[..i]
  {
    if line[0] == ':' then 0
    else
      assert ':' in line[1..];
      var j := FirstColon(line[1..]);
      assert line[..j + 1] == [line[0]] + line[1..][..j];
      j + 1
  }

  /** The first colon is found after any colon-free prefix, whatever follows it. */
  lemma FirstColonAfter(a: string, b: string)
    requires ':' !in a
    ensures FirstColon(a + ":" + b) == |a|
  {
    var line := a + ":" + b;
    assert line[..|a|] == a;
    assert line[|a|] == ':';
  }
}
