/** String helpers of the JavaScript runtime that the core relies on:
    `String.prototype.trim` and `Array.prototype.join('\n')`. */
module Text {

  /** The characters `trim` removes: ECMAScript WhiteSpace and LineTerminator. */
  predicate IsWhitespace(c: char)
  {
    || c == '\t' || c == '\n' || c == '\U{000B}' || c == '\U{000C}' || c == '\r' || c == ' '
    || c == '\U{00A0}' || c == '\U{1680}' || ('\U{2000}' <= c <= '\U{200A}')
    || c == '\U{2028}' || c == '\U{2029}' || c == '\U{202F}' || c == '\U{205F}'
    || c == '\U{3000}' || c == '\U{FEFF}'
  }

  /** Drops the leading whitespace: the result is the suffix of `s` after its
      longest all-whitespace prefix. */
  function TrimStart(s: string): (r: string)
    ensures |r| <= |s| && r == s[|s| - |r|..]
    ensures r == [] || !IsWhitespace(r[0])
    ensures forall i :: 0 <= i < |s| - |r| ==> IsWhitespace(s[i])
  {
    if s != [] && IsWhitespace(s[0]) then TrimStart(s[1..]) else s
  }

  /** Drops the trailing whitespace: the result is the prefix of `s` before
      its longest all-whitespace suffix. */
  function TrimEnd(s: string): (r: string)
    ensures |r| <= |s| && r == s[..|r|]
    ensures r == [] || !IsWhitespace(r[|r| - 1])
    ensures forall i :: |r| <= i < |s| ==> IsWhitespace(s[i])
  {
    if s != [] && IsWhitespace(s[|s| - 1]) then TrimEnd(s[..|s| - 1]) else s
  }

  function Trim(s: string): string
  {
    TrimEnd(TrimStart(s))
  }

  predicate IsTrimmed(s: string)
  {
    s == [] || (!IsWhitespace(s[0]) && !IsWhitespace(s[|s| - 1]))
  }

  lemma TrimStartOfTrimmed(s: string)
    requires s == [] || !IsWhitespace(s[0])
    ensures TrimStart(s) == s
  {
  }

  lemma TrimEndOfTrimmed(s: string)
    requires s == [] || !IsWhitespace(s[|s| - 1])
    ensures TrimEnd(s) == s
  {
  }

  /** `trim` yields a trimmed string and leaves a trimmed string alone, so it
      is idempotent. */
  lemma TrimProperties(s: string)
    ensures IsTrimmed(Trim(s))
    ensures IsTrimmed(s) ==> Trim(s) == s
    ensures Trim(Trim(s)) == Trim(s)
  {
    var t := TrimStart(s);
    var r := TrimEnd(t);
    assert r == t[..|r|];
    if r != [] {
      assert r[0] == t[0];
      assert !IsWhitespace(r[|r| - 1]);
    }
    assert IsTrimmed(r);
    if IsTrimmed(s) {
      TrimStartOfTrimmed(s);
      TrimEndOfTrimmed(s);
    }
    TrimStartOfTrimmed(r);
    TrimEndOfTrimmed(r);
  }

  /** `lines.join('\n')`. */
  function JoinLines(lines: seq<string>): string
  {
    if |lines| == 0 then ""
    else if |lines| == 1 then lines[0]
    else lines[0] + "\n" + JoinLines(lines[1..])
  }

  /** `s.split('\n')`: the inverse of JoinLines. */
  function SplitLines(s: string): (r: seq<string>)
    ensures |r| >= 1
  {
    if s == "" then [""]
    else
      var rest := SplitLines(s[1..]);
      if s[0] == '\n' then [""] + rest else [[s[0]] + rest[0]] + rest[1..]
  }

  lemma {:induction false} SplitLinesOfLine(line: string, t: string)
    requires '\n' !in line
    ensures SplitLines(line + t) == [line + SplitLines(t)[0]] + SplitLines(t)[1..]
    decreases |line|
  {
    if line != "" {
      var u := line + t;
      assert u[0] == line[0] && u[0] != '\n';
      assert u[1..] == line[1..] + t;
      SplitLinesOfLine(line[1..], t);
      assert SplitLines(u) == [[u[0]] + SplitLines(u[1..])[0]] + SplitLines(u[1..])[1..];
      assert [line[0]] + (line[1..] + SplitLines(t)[0]) == line + SplitLines(t)[0];
    } else {
      var r := SplitLines(t);
      assert line + t == t && line + r[0] == r[0];
      assert r == [r[0]] + r[1..];
    }
  }

  /** Joining lines that hold no line break and splitting the result again
      gives back the lines. */
  lemma {:induction false} SplitJoinLines(lines: seq<string>)
    requires |lines| >= 1
    requires forall i :: 0 <= i < |lines| ==> '\n' !in lines[i]
    ensures SplitLines(JoinLines(lines)) == lines
    decreases |lines|
  {
    if |lines| == 1 {
      SplitLinesOfLine(lines[0], "");
      assert SplitLines("") == [""];
      assert lines[0] + "" == lines[0];
    } else {
      var tail := lines[1..];
      SplitJoinLines(tail);
      var t := "\n" + JoinLines(tail);
      assert lines[0] + "\n" + JoinLines(tail) == lines[0] + t;
      SplitLinesOfLine(lines[0], t);
      assert t[0] == '\n' && t[1..] == JoinLines(tail);
      assert SplitLines(t) == [""] + SplitLines(t[1..]);
      assert SplitLines(t) == [""] + tail;
      assert JoinLines(lines) == lines[0] + t;
      assert lines[0] + SplitLines(t)[0] == lines[0];
      assert lines == [lines[0]] + tail;
    }
  }
}
