/**
 The delimited-block merge of `update_from_template`: a destination file,
 read as lines, either receives a new block bounded by the BEGIN and END
 marker lines, has the lines between its existing markers replaced, or is
 left alone because its markers are duplicated or unpaired.
 */
module DelimitedBlock {
  import opened Options
  import opened TextLines

  /** The twenty `=` either side of the tool's name in both marker lines. */
  const Rule: string := "===================="
  const BeginDelimiter: string := "# BEGIN " + Rule + " lint_it_all " + Rule + "\n"
  const EndDelimiter: string := "# END " + Rule + " lint_it_all " + Rule + "\n"

  /** Why a destination file is left untouched. */
  datatype SkipReason = DuplicateDelimiters | MismatchedDelimiters

  /** What the marker scan leaves behind: an early stop, or the marker indices. */
  datatype Scan = Duplicate | Markers(start: Option<nat>, end: Option<nat>)

  /** The state of a destination file with respect to its block. */
  datatype Block = NoBlock | Paired(start: nat, end: nat) | Malformed(reason: SkipReason)

  /** The result of merging into one destination file. */
  datatype Outcome = Updated(lines: seq<string>) | Skipped(reason: SkipReason)

  /** No line of `lines` is either marker. */
  predicate Unmarked(lines: seq<string>)
  {
    BeginDelimiter !in lines && EndDelimiter !in lines
  }

  /**
   The scan over `lines`, top to bottom: it records the index of each
   marker line and stops at the second copy of either.
   */
  function ScanOf(lines: seq<string>): (r: Scan)
    ensures r.Markers? && r.start.Some? ==> r.start.value < |lines|
    ensures r.Markers? && r.end.Some? ==> r.end.value < |lines|
  {
    if lines == [] then Markers(None, None)
    else
      var i := |lines| - 1;
      match ScanOf(lines[..i])
      case Duplicate => Duplicate
      case Markers(start, end) =>
        if lines[i] == BeginDelimiter && start.Some? then Duplicate
        else if lines[i] == EndDelimiter && end.Some? then Duplicate
        else Markers(if lines[i] == BeginDelimiter then Some(i) else start,
                     if lines[i] == EndDelimiter then Some(i) else end)
  }

  /** The scan stops exactly on a repeated marker, and otherwise records where each marker is. */
  lemma {:induction false} ScanOfMeaning(lines: seq<string>)
    ensures ScanOf(lines).Duplicate? <==> Repeated(lines, BeginDelimiter) || Repeated(lines, EndDelimiter)
    ensures var r := ScanOf(lines);
            r.Markers? ==> Locates(lines, BeginDelimiter, r.start) && Locates(lines, EndDelimiter, r.end)
  {
    if lines != [] {
      var i := |lines| - 1;
      var front, x := lines[..i], lines[i];
      assert lines == front + [x];
      ScanOfMeaning(front);
      RepeatedSnoc(front, x, BeginDelimiter);
      RepeatedSnoc(front, x, EndDelimiter);
      match ScanOf(front)
      case Duplicate =>
      case Markers(start, end) =>
        if !ScanOf(lines).Duplicate? {
          LocatesSnoc(front, x, BeginDelimiter, start);
          LocatesSnoc(front, x, EndDelimiter, end);
        }
    }
  }

  /** The scan stays stopped once a prefix of the file has a repeated marker. */
  lemma {:induction false} DuplicateStays(lines: seq<string>, i: nat)
    requires i <= |lines| && ScanOf(lines[..i]).Duplicate?
    ensures ScanOf(lines).Duplicate?
    decreases |lines| - i
  {
    if i < |lines| {
      assert lines[..i + 1][..i] == lines[..i];
      DuplicateStays(lines, i + 1);
    } else {
      assert lines[..i] == lines;
    }
  }

  /** The top-to-bottom scan of `update_from_template`, returning at the first duplicate marker. */
  method ScanMarkers(lines: seq<string>) returns (scan: Scan)
    ensures scan == ScanOf(lines)
  {
    var start: Option<nat> := None;
    var end: Option<nat> := None;
    for i := 0 to |lines|
      invariant ScanOf(lines[..i]) == Markers(start, end)
    {
      assert lines[..i + 1][..i] == lines[..i];
      if lines[i] == BeginDelimiter {
        if start.Some? {
          DuplicateStays(lines, i + 1);
          return Duplicate;
        }
        start := Some(i);
      }
      if lines[i] == EndDelimiter {
        if end.Some? {
          DuplicateStays(lines, i + 1);
          return Duplicate;
        }
        end := Some(i);
      }
    }
    assert lines[..|lines|] == lines;
    scan := Markers(start, end);
  }

  /** The three branches of `update_from_template`, decided from the scan. */
  function Classify(lines: seq<string>): (r: Block)
    ensures r.Paired? ==> r.start < |lines| && r.end < |lines|
  {
    match ScanOf(lines)
    case Duplicate => Malformed(DuplicateDelimiters)
    case Markers(None, None) => NoBlock
    case Markers(Some(s), Some(e)) => Paired(s, e)
    case Markers(_, _) => Malformed(MismatchedDelimiters)
  }

  /** Each state of the file, and which marker lines put it there. */
  lemma ClassifyMeaning(lines: seq<string>)
    ensures Classify(lines) == NoBlock <==> Unmarked(lines)
    ensures Classify(lines) == Malformed(DuplicateDelimiters) <==>
              Repeated(lines, BeginDelimiter) || Repeated(lines, EndDelimiter)
    ensures Classify(lines) == Malformed(MismatchedDelimiters) <==>
              !Repeated(lines, BeginDelimiter) && !Repeated(lines, EndDelimiter)
              && (BeginDelimiter in lines) != (EndDelimiter in lines)
    ensures var r := Classify(lines);
            r.Paired? ==> Locates(lines, BeginDelimiter, Some(r.start)) && Locates(lines, EndDelimiter, Some(r.end))
  {
    ScanOfMeaning(lines);
  }

  /** The newline written before a new block unless the file is empty or already ends in a blank line. */
  function Separator(dest: seq<string>): seq<string>
  {
    if |dest| > 0 && Strip(dest[|dest| - 1]) != "" then ["\n"] else []
  }

  /** `update_from_template` on line sequences: `dest` is the destination's lines, `src` the template's. */
  function Merge(dest: seq<string>, src: seq<string>): Outcome
  {
    match Classify(dest)
    case NoBlock => Updated(dest + Separator(dest) + [BeginDelimiter] + src + [EndDelimiter])
    case Paired(s, e) => Updated(dest[..s + 1] + src + dest[e..])
    case Malformed(reason) => Skipped(reason)
  }

  /** A file with exactly one BEGIN at `s` and exactly one END at `e` is a paired block. */
  lemma ClassifyPaired(lines: seq<string>, s: nat, e: nat)
    requires Locates(lines, BeginDelimiter, Some(s)) && Locates(lines, EndDelimiter, Some(e))
    ensures Classify(lines) == Paired(s, e)
  {
    ScanOfMeaning(lines);
    LocatesNotRepeated(lines, BeginDelimiter, Some(s));
    LocatesNotRepeated(lines, EndDelimiter, Some(e));
    LocatesUnique(lines, BeginDelimiter, ScanOf(lines).start, Some(s));
    LocatesUnique(lines, EndDelimiter, ScanOf(lines).end, Some(e));
  }

  /** A second BEGIN line makes the file skipped as duplicate, whatever the template holds. */
  lemma MergeSkipsRepeatedBegin(dest: seq<string>, src: seq<string>, i: nat, j: nat)
    requires i < j < |dest| && dest[i] == BeginDelimiter && dest[j] == BeginDelimiter
    ensures Merge(dest, src) == Skipped(DuplicateDelimiters)
  {
    assert Repeated(dest, BeginDelimiter);
    ClassifyMeaning(dest);
  }

  /** A second END line makes the file skipped as duplicate, whatever the template holds. */
  lemma MergeSkipsRepeatedEnd(dest: seq<string>, src: seq<string>, i: nat, j: nat)
    requires i < j < |dest| && dest[i] == EndDelimiter && dest[j] == EndDelimiter
    ensures Merge(dest, src) == Skipped(DuplicateDelimiters)
  {
    assert Repeated(dest, EndDelimiter);
    ClassifyMeaning(dest);
  }

  /** Exactly one of the two markers present, neither repeated: skipped as mismatched. */
  lemma MergeSkipsMismatched(dest: seq<string>, src: seq<string>)
    requires !Repeated(dest, BeginDelimiter) && !Repeated(dest, EndDelimiter)
    requires (BeginDelimiter in dest) != (EndDelimiter in dest)
    ensures Merge(dest, src) == Skipped(MismatchedDelimiters)
  {
    ClassifyMeaning(dest);
  }

  /** The file is skipped exactly when a marker is repeated or only one of them is present. */
  lemma MergeSkipsIff(dest: seq<string>, src: seq<string>)
    ensures Merge(dest, src).Skipped? <==>
              Repeated(dest, BeginDelimiter) || Repeated(dest, EndDelimiter)
              || (BeginDelimiter in dest) != (EndDelimiter in dest)
  {
    ClassifyMeaning(dest);
  }

  /**
   Without markers the block is appended: after the old lines, a newline
   line when the last line is not blank, then BEGIN, the template, END.
   */
  lemma MergeAppends(dest: seq<string>, src: seq<string>)
    requires Unmarked(dest)
    ensures var sep := if |dest| > 0 && !IsBlank(dest[|dest| - 1]) then ["\n"] else [];
            Merge(dest, src) == Updated(dest + sep + [BeginDelimiter] + src + [EndDelimiter])
    ensures Merge(dest, src).Updated? && dest <= Merge(dest, src).lines
  {
    ClassifyMeaning(dest);
    if |dest| > 0 {
      StripEmptyIffBlank(dest[|dest| - 1]);
    }
    var r := Merge(dest, src).lines;
    assert r == dest + (Separator(dest) + [BeginDelimiter] + src + [EndDelimiter]);
  }

  /** A missing destination is created empty, so it ends up as the bare block. */
  lemma MergeIntoEmpty(src: seq<string>)
    ensures Merge([], src) == Updated([BeginDelimiter] + src + [EndDelimiter])
  {
    assert Unmarked([]);
    ClassifyMeaning([]);
  }

  /**
   With one BEGIN at `s` and one END at `e`, everything through BEGIN and
   everything from END on is kept verbatim and the template goes between.
   */
  lemma MergeReplaces(dest: seq<string>, src: seq<string>, s: nat, e: nat)
    requires Locates(dest, BeginDelimiter, Some(s)) && Locates(dest, EndDelimiter, Some(e))
    ensures Merge(dest, src).Updated?
    ensures var r := Merge(dest, src).lines;
            && r == dest[..s + 1] + src + dest[e..]
            && |r| == s + 1 + |src| + |dest| - e
            && r[..s + 1] == dest[..s + 1]
            && r[s + 1..s + 1 + |src|] == src
            && r[s + 1 + |src|..] == dest[e..]
  {
    ClassifyPaired(dest, s, e);
    var r := Merge(dest, src).lines;
    assert r == dest[..s + 1] + src + dest[e..];
    assert r[..s + 1] == dest[..s + 1];
    assert r[s + 1..s + 1 + |src|] == src;
    assert r[s + 1 + |src|..] == dest[e..];
  }

  /** The appended block is a well-formed paired block when the template holds no marker. */
  lemma AppendedIsPaired(dest: seq<string>, src: seq<string>)
    requires Unmarked(dest) && Unmarked(src)
    ensures var r := dest + Separator(dest) + [BeginDelimiter] + src + [EndDelimiter];
            Classify(r) == Paired(|dest| + |Separator(dest)|, |r| - 1)
  {
    var sep := Separator(dest);
    var r := dest + sep + [BeginDelimiter] + src + [EndDelimiter];
    var k := |dest| + |sep|;
    assert "\n" != BeginDelimiter && "\n" != EndDelimiter;
    forall j | 0 <= j < |r|
      ensures r[j] == BeginDelimiter ==> j == k
      ensures r[j] == EndDelimiter ==> j == |r| - 1
    {
      if j < |dest| {
        assert r[j] == dest[j];
      } else if j < k {
        assert r[j] == sep[j - |dest|];
      } else if k < j < |r| - 1 {
        assert r[j] == src[j - k - 1];
      }
    }
    ClassifyPaired(r, k, |r| - 1);
  }

  /** The replaced block of a well-ordered pair is again a well-ordered pair. */
  lemma ReplacedIsPaired(dest: seq<string>, src: seq<string>, s: nat, e: nat)
    requires Locates(dest, BeginDelimiter, Some(s)) && Locates(dest, EndDelimiter, Some(e))
    requires s < e && Unmarked(src)
    ensures Classify(dest[..s + 1] + src + dest[e..]) == Paired(s, s + 1 + |src|)
  {
    var r := dest[..s + 1] + src + dest[e..];
    var k := s + 1 + |src|;
    forall j | 0 <= j < |r|
      ensures r[j] == BeginDelimiter ==> j == s
      ensures r[j] == EndDelimiter ==> j == k
    {
      if j <= s {
        assert r[j] == dest[j];
      } else if j < k {
        assert r[j] == src[j - s - 1];
      } else {
        assert r[j] == dest[j - k + e];
      }
    }
    ClassifyPaired(r, s, k);
  }

  /** Merging the same marker-free template again into a freshly appended block changes nothing. */
  lemma {:induction false} MergeIdempotentFromNoBlock(dest: seq<string>, src: seq<string>)
    requires Unmarked(dest) && Unmarked(src)
    ensures Merge(dest, src).Updated?
    ensures Merge(Merge(dest, src).lines, src) == Merge(dest, src)
  {
    ClassifyMeaning(dest);
    var r := dest + Separator(dest) + [BeginDelimiter] + src + [EndDelimiter];
    assert Merge(dest, src) == Updated(r);
    AppendedIsPaired(dest, src);
    var k := |dest| + |Separator(dest)|;
    assert Merge(r, src) == Updated(r[..k + 1] + src + r[|r| - 1..]);
    assert r[..k + 1] + src + r[|r| - 1..] == r;
  }

  /** Merging the same marker-free template twice into a well-ordered pair changes nothing the second time. */
  lemma {:induction false} MergeIdempotentFromPaired(dest: seq<string>, src: seq<string>, s: nat, e: nat)
    requires Locates(dest, BeginDelimiter, Some(s)) && Locates(dest, EndDelimiter, Some(e))
    requires s < e && Unmarked(src)
    ensures Merge(dest, src).Updated?
    ensures Merge(Merge(dest, src).lines, src) == Merge(dest, src)
  {
    MergeReplaces(dest, src, s, e);
    ReplacedIsPaired(dest, src, s, e);
    var r := Merge(dest, src).lines;
    assert r[..s + 1] + src + r[s + 1 + |src|..] == r;
  }

  /**
   The scan does not check that BEGIN precedes END. With END at `e` before
   BEGIN at `s`, the lines from END through BEGIN are written twice, so the
   file then holds two of each marker and every later merge skips it.
   */
  lemma EndBeforeBeginDuplicates(dest: seq<string>, src: seq<string>, s: nat, e: nat)
    requires Locates(dest, BeginDelimiter, Some(s)) && Locates(dest, EndDelimiter, Some(e))
    requires e < s
    ensures Merge(dest, src).Updated?
    ensures var r := Merge(dest, src).lines;
            Repeated(r, BeginDelimiter) && Repeated(r, EndDelimiter)
            && forall src' :: Merge(r, src') == Skipped(DuplicateDelimiters)
  {
    ClassifyPaired(dest, s, e);
    var r := dest[..s + 1] + src + dest[e..];
    assert Merge(dest, src) == Updated(r);
    var k := s + 1 + |src|;
    assert r[e] == EndDelimiter && r[s] == BeginDelimiter;
    assert r[k] == dest[e] && r[k + s - e] == dest[s];
    assert Repeated(r, BeginDelimiter) && Repeated(r, EndDelimiter);
    forall src' ensures Merge(r, src') == Skipped(DuplicateDelimiters) {
      ClassifyMeaning(r);
    }
  }

  /** Each marker is one complete line. */
  lemma DelimitersAreLines()
    ensures IsLine(BeginDelimiter) && IsLine(EndDelimiter) && IsLine("\n")
  {
    assert NoNewline("# BEGIN ") && NoNewline("# END ") && NoNewline(Rule) && NoNewline(" lint_it_all ");
    NoNewlineConcat(Rule, " lint_it_all ");
    NoNewlineConcat(Rule + " lint_it_all ", Rule);
    var tail := Rule + " lint_it_all " + Rule;
    NoNewlineConcat("# BEGIN ", tail);
    NoNewlineConcat("# END ", tail);
    NoNewlineThenNewline("# BEGIN " + tail);
    NoNewlineThenNewline("# END " + tail);
    assert BeginDelimiter == "# BEGIN " + tail + "\n";
    assert EndDelimiter == "# END " + tail + "\n";
  }

  /**
   When the destination and the template consist of complete lines, so does
   the merged file, and reading back the text written gives exactly the
   merged lines: the line-level lemmas above then hold of the file's text.
   */
  lemma MergeKeepsTerminated(dest: seq<string>, src: seq<string>)
    requires Terminated(dest) && Terminated(src)
    ensures Merge(dest, src).Updated? ==> Terminated(Merge(dest, src).lines)
    ensures Merge(dest, src).Updated? ==> ReadLines(Join(Merge(dest, src).lines)) == Merge(dest, src).lines
  {
    DelimitersAreLines();
    match Classify(dest) {
      case NoBlock =>
        TerminatedConcat(dest, Separator(dest));
        TerminatedConcat(dest + Separator(dest), [BeginDelimiter]);
        TerminatedConcat(dest + Separator(dest) + [BeginDelimiter], src);
        TerminatedConcat(dest + Separator(dest) + [BeginDelimiter] + src, [EndDelimiter]);
      case Paired(s, e) =>
        TerminatedConcat(dest[..s + 1], src);
        TerminatedConcat(dest[..s + 1] + src, dest[e..]);
      case Malformed(_) =>
    }
    if Merge(dest, src).Updated? {
      ReadJoin(Merge(dest, src).lines);
    }
  }

  /** Text ending in a part line, then a complete line: the two are read back as one. */
  lemma ReadLinesGlued(w: string, line: string, rest: seq<string>)
    requires NoNewline(w) && IsLine(line) && Terminated(rest)
    ensures IsLine(w + line)
    ensures ReadLines(Join([w, line] + rest)) == [w + line] + rest
  {
    var glued := w + line;
    forall i | 0 <= i < |glued| - 1 ensures glued[i] != '\n' {
      if i >= |w| { assert glued[i] == line[i - |w|]; }
    }
    assert ([w, line] + rest)[1..] == [line] + rest;
    assert ([line] + rest)[1..] == rest;
    assert Join([w, line] + rest) == glued + Join(rest);
    ReadLinesCons(glued, Join(rest));
    ReadJoin(rest);
  }

  /**
   A destination whose last line is blank but has no newline gets no
   separator, so the BEGIN marker is written onto that line. Read back, the
   file holds an END marker without a BEGIN, and the next merge skips it as
   mismatched, even with a template of complete lines.
   */
  lemma UnterminatedBlankLastLine()
    ensures var dest := ["foo\n", " "];
            var r := Merge(dest, ["x\n"]);
            && r == Updated(dest + [BeginDelimiter, "x\n", EndDelimiter])
            && ReadLines(Join(r.lines)) == ["foo\n", " " + BeginDelimiter, "x\n", EndDelimiter]
            && Merge(ReadLines(Join(r.lines)), ["x\n"]) == Skipped(MismatchedDelimiters)
  {
    var dest := ["foo\n", " "];
    AppendsOntoBlank(dest);
    var lines := dest + [BeginDelimiter, "x\n", EndDelimiter];
    DelimitersAreLines();
    var rest := ["x\n", EndDelimiter];
    assert IsLine("x\n") && IsLine("foo\n");
    assert Terminated(rest);
    ReadLinesGlued(" ", BeginDelimiter, rest);
    var back := [" " + BeginDelimiter] + rest;
    assert lines[1..] == [" ", BeginDelimiter] + rest;
    assert Join(lines) == "foo\n" + Join(lines[1..]);
    ReadLinesCons("foo\n", Join(lines[1..]));
    assert ReadLines(Join(lines)) == ["foo\n"] + back;
    GluedEndOnly(["foo\n"] + back);
  }

  /** The merge of `UnterminatedBlankLastLine`: no separator after the blank line. */
  lemma AppendsOntoBlank(dest: seq<string>)
    requires dest == ["foo\n", " "]
    ensures Merge(dest, ["x\n"]) == Updated(dest + [BeginDelimiter, "x\n", EndDelimiter])
  {
    assert |"foo\n"| != |BeginDelimiter| && |" "| != |BeginDelimiter|;
    assert |"foo\n"| != |EndDelimiter| && |" "| != |EndDelimiter|;
    assert Unmarked(dest);
    assert IsBlank(" ");
    MergeAppends(dest, ["x\n"]);
  }

  /** The read-back file of `UnterminatedBlankLastLine` is skipped as mismatched. */
  lemma GluedEndOnly(back: seq<string>)
    requires back == ["foo\n", " " + BeginDelimiter, "x\n", EndDelimiter]
    ensures Merge(back, ["x\n"]) == Skipped(MismatchedDelimiters)
  {
    assert |" " + BeginDelimiter| != |BeginDelimiter|;
    assert |"foo\n"| != |BeginDelimiter| && |"x\n"| != |BeginDelimiter|;
    assert BeginDelimiter !in back;
    assert |"foo\n"| != |EndDelimiter| && |"x\n"| != |EndDelimiter| && |" " + BeginDelimiter| != |EndDelimiter|;
    assert !Repeated(back, EndDelimiter);
    MergeSkipsMismatched(back, ["x\n"]);
  }
}
