/**
 Lines of a text file, as Python's `readlines` returns them: a sequence of
 strings, each normally ending in its own newline. This module holds the
 generic facts the delimited-block merge relies on: repeating and locating a
 line, writing lines out as text and reading them back, and Python's
 `str.strip()`.
 */
module TextLines {
  import opened Options

  /** `m` is the line at two different indices of `s`. */
  ghost predicate Repeated(s: seq<string>, m: string)
  {
    exists i, j :: 0 <= i < j < |s| && s[i] == m && s[j] == m
  }

  /** `k` records where `m` occurs in `s`: nowhere, or exactly at one index. */
  ghost predicate Locates(s: seq<string>, m: string, k: Option<nat>)
  {
    match k
    case None => m !in s
    case Some(i) => i < |s| && s[i] == m && forall j :: 0 <= j < |s| && s[j] == m ==> j == i
  }

  /** A line appended to `s` repeats `m` exactly when it is `m` and `m` was already there. */
  lemma RepeatedSnoc(s: seq<string>, x: string, m: string)
    ensures Repeated(s + [x], m) <==> Repeated(s, m) || (x == m && m in s)
  {
    var t := s + [x];
    if Repeated(s, m) {
      var i, j :| 0 <= i < j < |s| && s[i] == m && s[j] == m;
      assert t[i] == m && t[j] == m;
    }
    if x == m && m in s {
      var i :| 0 <= i < |s| && s[i] == m;
      assert t[i] == m && t[|s|] == m;
    }
    if Repeated(t, m) {
      var i, j :| 0 <= i < j < |t| && t[i] == m && t[j] == m;
      if j < |s| {
        assert s[i] == m && s[j] == m;
      } else {
        assert s[i] == m;
      }
    }
  }

  /** Where `m` is after one more line, given where it was and that it is not repeated. */
  lemma LocatesSnoc(s: seq<string>, x: string, m: string, k: Option<nat>)
    requires Locates(s, m, k)
    requires x == m ==> k.None?
    ensures Locates(s + [x], m, if x == m then Some(|s|) else k)
  {
    var t := s + [x];
    assert forall j :: 0 <= j < |s| ==> t[j] == s[j];
  }

  /** Only one value of `k` records where `m` is. */
  lemma LocatesUnique(s: seq<string>, m: string, k: Option<nat>, k': Option<nat>)
    requires Locates(s, m, k) && Locates(s, m, k')
    ensures k == k'
  {
  }

  /** A line recorded at one index, or nowhere, is not repeated. */
  lemma LocatesNotRepeated(s: seq<string>, m: string, k: Option<nat>)
    requires Locates(s, m, k)
    ensures !Repeated(s, m)
  {
  }

  /** One complete line: it ends in a newline and holds no other. */
  predicate IsLine(line: string)
  {
    |line| > 0 && line[|line| - 1] == '\n' && forall i :: 0 <= i < |line| - 1 ==> line[i] != '\n'
  }

  /** Every line is complete, so the lines are exactly what reading their text back gives. */
  predicate Terminated(lines: seq<string>)
  {
    forall i :: 0 <= i < |lines| ==> IsLine(lines[i])
  }

  /** Text with no newline in it: a part of one line. */
  predicate NoNewline(s: string)
  {
    forall i :: 0 <= i < |s| ==> s[i] != '\n'
  }

  lemma NoNewlineConcat(a: string, b: string)
    requires NoNewline(a) && NoNewline(b)
    ensures NoNewline(a + b)
  {
    forall i | 0 <= i < |a + b| ensures (a + b)[i] != '\n' {
      if i >= |a| { assert (a + b)[i] == b[i - |a|]; }
    }
  }

  /** Text without a newline, then a newline, is one complete line. */
  lemma NoNewlineThenNewline(s: string)
    requires NoNewline(s)
    ensures IsLine(s + "\n")
  {
    var t := s + "\n";
    forall i | 0 <= i < |t| - 1 ensures t[i] != '\n' {
      assert t[i] == s[i];
    }
  }

  lemma TerminatedConcat(a: seq<string>, b: seq<string>)
    requires Terminated(a) && Terminated(b)
    ensures Terminated(a + b)
  {
    forall i | 0 <= i < |a + b| ensures IsLine((a + b)[i]) {
      if i >= |a| { assert (a + b)[i] == b[i - |a|]; }
    }
  }

  /** The text `writelines` produces: the lines one after another. */
  function Join(lines: seq<string>): string
  {
    if lines == [] then "" else lines[0] + Join(lines[1..])
  }

  /** The length of the first line of `t`: through its first newline, or all of `t`. */
  function FirstLineLength(t: string): (n: nat)
    requires t != []
    ensures 0 < n <= |t|
  {
    if t[0] == '\n' || |t| == 1 then 1 else 1 + FirstLineLength(t[1..])
  }

  /** What `readlines` returns for the text `t` (newline translation aside). */
  function ReadLines(t: string): seq<string>
    decreases |t|
  {
    if t == [] then [] else
      var n := FirstLineLength(t);
      [t[..n]] + ReadLines(t[n..])
  }

  lemma {:induction false} FirstLineOfLine(line: string, rest: string)
    requires IsLine(line)
    ensures FirstLineLength(line + rest) == |line|
    decreases |line|
  {
    var t := line + rest;
    if |line| > 1 {
      assert t[0] == line[0] != '\n';
      assert t[1..] == line[1..] + rest;
      FirstLineOfLine(line[1..], rest);
    }
  }

  /** A complete line followed by more text is read back as that line, then the rest. */
  lemma ReadLinesCons(line: string, rest: string)
    requires IsLine(line)
    ensures ReadLines(line + rest) == [line] + ReadLines(rest)
  {
    FirstLineOfLine(line, rest);
    var t := line + rest;
    assert t[..|line|] == line && t[|line|..] == rest;
  }

  /** Writing complete lines and reading them back gives the same lines. */
  lemma {:induction false} ReadJoin(lines: seq<string>)
    requires Terminated(lines)
    ensures ReadLines(Join(lines)) == lines
  {
    if lines != [] {
      assert Terminated(lines[1..]) by {
        forall i | 0 <= i < |lines[1..]| ensures IsLine(lines[1..][i]) {
          assert lines[1..][i] == lines[i + 1];
        }
      }
      ReadJoin(lines[1..]);
      ReadLinesCons(lines[0], Join(lines[1..]));
    }
  }

  /** Python's whitespace characters (`str.isspace`), which `str.strip()` removes. */
  predicate IsSpace(c: char)
  {
    c == ' ' || ('\t' <= c <= '\r') || ('\U{1c}' <= c <= '\U{1f}')
    || c == '\U{85}' || c == '\U{a0}' || c == '\U{1680}'
    || ('\U{2000}' <= c <= '\U{200a}') || c == '\U{2028}' || c == '\U{2029}'
    || c == '\U{202f}' || c == '\U{205f}' || c == '\U{3000}'
  }

  /** A line holding only whitespace (a blank line). */
  predicate IsBlank(line: string)
  {
    forall i :: 0 <= i < |line| ==> IsSpace(line[i])
  }

  function StripLeading(s: string): string
  {
    if s != [] && IsSpace(s[0]) then StripLeading(s[1..]) else s
  }

  function StripTrailing(s: string): string
  {
    if s != [] && IsSpace(s[|s| - 1]) then StripTrailing(s[..|s| - 1]) else s
  }

  /** Python's `str.strip()` with no argument. */
  function Strip(s: string): string
  {
    StripTrailing(StripLeading(s))
  }

  lemma {:induction false} StripLeadingProps(s: string)
    ensures StripLeading(s) == [] <==> IsBlank(s)
    ensures StripLeading(s) != [] ==> !IsSpace(StripLeading(s)[0])
  {
    if s != [] && IsSpace(s[0]) {
      StripLeadingProps(s[1..]);
      assert IsBlank(s[1..]) ==> IsBlank(s) by {
        if IsBlank(s[1..]) {
          forall i | 0 <= i < |s| ensures IsSpace(s[i]) {
            if i > 0 { assert s[i] == s[1..][i - 1]; }
          }
        }
      }
    }
  }

  lemma {:induction false} StripTrailingProps(s: string)
    ensures StripTrailing(s) == [] <==> IsBlank(s)
  {
    if s != [] && IsSpace(s[|s| - 1]) {
      StripTrailingProps(s[..|s| - 1]);
      assert IsBlank(s[..|s| - 1]) ==> IsBlank(s) by {
        if IsBlank(s[..|s| - 1]) {
          forall i | 0 <= i < |s| ensures IsSpace(s[i]) {
            if i < |s| - 1 { assert s[i] == s[..|s| - 1][i]; }
          }
        }
      }
    }
  }

  /** `line.strip() == ''` holds exactly of blank lines. */
  lemma StripEmptyIffBlank(line: string)
    ensures Strip(line) == "" <==> IsBlank(line)
  {
    StripLeadingProps(line);
    var t := StripLeading(line);
    StripTrailingProps(t);
    if t != [] {
      assert !IsBlank(t);
    }
  }
}
