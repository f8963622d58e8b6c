/** internal/publicreport: the line filter behind everything the agent says in public, and the
    appender of internal/worker/worker.go that joins report sections. */
module PublicReport {
  import opened Text

  const FALLBACK := "Agent feedback was withheld because " + "it did not pass the public safety filter."

  /** The pattern test of a line does not look at white space around the line. */
  ghost predicate TrimInvariant(unsafe: string -> bool) {
    forall line: string | Clean(line) :: unsafe(TrimSpace(line)) == unsafe(line)
  }

  // -------------------------------------------------------------- the filter

  /** The lines that pass, without trailing blanks; a line of white space becomes the empty line. */
  function Screen(lines: seq<string>, unsafe: string -> bool): seq<string> {
    if lines == [] then [] else Screen(lines[..|lines| - 1], unsafe) + ScreenLine(lines[|lines| - 1], unsafe)
  }

  function ScreenLine(raw: string, unsafe: string -> bool): seq<string> {
    var line := TrimRight(raw, IsBlankChar);
    if unsafe(line) then [] else [if Blank(line) then "" else line]
  }

  /** Without the empty lines at the start and those that follow another empty line. */
  function Squeeze(lines: seq<string>): seq<string> {
    if lines == [] then []
    else
      var front, line := Squeeze(lines[..|lines| - 1]), lines[|lines| - 1];
      if line == "" && (front == [] || EndsBlank(front)) then front else front + [line]
  }

  function Lines(text: string): (lines: seq<string>)
    ensures lines != []
  {
    Split(StripControl(text), '\n')
  }

  function Kept(text: string, unsafe: string -> bool): seq<string> {
    Squeeze(Screen(Lines(TrimSpace(text)), unsafe))
  }

  /** What Sanitize publishes. */
  function Sanitized(text: string, unsafe: string -> bool): string {
    var out := TrimSpace(Join(Kept(text, unsafe), "\n"));
    if out == "" then FALLBACK else out
  }

  method Sanitize(text: string, unsafe: string -> bool) returns (out: string)
    ensures out == Sanitized(text, unsafe)
  {
    var clean := StripControl(TrimSpace(text));
    if clean == "" {
      NothingToKeep(text, unsafe);
      return FALLBACK;
    }
    var kept := KeepLines(Split(clean, '\n'), unsafe);
    out := TrimSpace(Join(kept, "\n"));
    if out == "" {
      return FALLBACK;
    }
  }

  predicate EndsBlank(lines: seq<string>) {
    lines != [] && lines[|lines| - 1] == ""
  }

  /** What one more line adds. */
  function KeepLine(kept: seq<string>, raw: string, unsafe: string -> bool): seq<string> {
    var line := TrimRight(raw, IsBlankChar);
    if unsafe(line) then kept
    else if !Blank(line) then kept + [line]
    else if kept == [] || EndsBlank(kept) then kept
    else kept + [""]
  }

  function KeptLines(lines: seq<string>, unsafe: string -> bool): seq<string> {
    if lines == [] then [] else KeepLine(KeptLines(lines[..|lines| - 1], unsafe), lines[|lines| - 1], unsafe)
  }

  lemma ShownIsNotEmpty(line: string)
    requires !Blank(line)
    ensures line != ""
  {
    BlankIsAllSpace(line);
  }

  /** The loop of Sanitize. */
  method KeepLines(lines: seq<string>, unsafe: string -> bool) returns (kept: seq<string>)
    ensures kept == Squeeze(Screen(lines, unsafe))
  {
    kept := [];
    var blank := false;
    for i := 0 to |lines|
      invariant kept == KeptLines(lines[..i], unsafe)
      invariant blank <==> EndsBlank(kept)
    {
      assert lines[..i + 1][..i] == lines[..i];
      var line := TrimRight(lines[i], IsBlankChar);
      if unsafe(line) {
        continue;
      }
      if TrimSpace(line) == "" {
        if kept == [] || blank {
          continue;
        }
        blank := true;
        kept := kept + [""];
        continue;
      }
      ShownIsNotEmpty(line);
      blank := false;
      kept := kept + [line];
    }
    assert lines[..|lines|] == lines;
    KeptInOnePass(lines, unsafe);
  }

  /** The loop screens and squeezes in one pass. */
  lemma {:induction false} KeptInOnePass(lines: seq<string>, unsafe: string -> bool)
    ensures KeptLines(lines, unsafe) == Squeeze(Screen(lines, unsafe))
  {
    if lines != [] {
      KeptInOnePass(lines[..|lines| - 1], unsafe);
      KeepOne(Screen(lines[..|lines| - 1], unsafe), lines[|lines| - 1], unsafe);
    }
  }

  lemma KeepOne(screened: seq<string>, raw: string, unsafe: string -> bool)
    ensures Squeeze(screened + ScreenLine(raw, unsafe)) == KeepLine(Squeeze(screened), raw, unsafe)
  {
    var line := TrimRight(raw, IsBlankChar);
    if unsafe(line) {
      assert screened + [] == screened;
    } else if Blank(line) {
      SqueezeOne(screened, "");
    } else {
      ShownIsNotEmpty(line);
      SqueezeOne(screened, line);
    }
  }

  lemma SqueezeOne(lines: seq<string>, line: string)
    ensures var front := Squeeze(lines);
            Squeeze(lines + [line]) == if line == "" && (front == [] || EndsBlank(front)) then front else front + [line]
  {
    assert (lines + [line])[..|lines|] == lines;
  }

  lemma NothingToKeep(text: string, unsafe: string -> bool)
    requires StripControl(TrimSpace(text)) == ""
    ensures Sanitized(text, unsafe) == FALLBACK
  {
    var lines := Lines(TrimSpace(text));
    assert lines == [""] && lines[..0] == [];
    assert Screen(lines, unsafe) == [] || Screen(lines, unsafe) == [""];
    SqueezeOne([], "");
    assert [] + [""] == [""];
  }

  // ------------------------------------------------- what a published report is like

  /** A line the filter leaves as it is. */
  ghost predicate GoodLine(line: string, unsafe: string -> bool) {
    && Clean(line) && '\n' !in line
    && !unsafe(line)
    && TrimRight(line, IsBlankChar) == line
    && (Blank(line) ==> line == "")
  }

  predicate Apart(lines: seq<string>, i: nat)
    requires i + 1 < |lines|
  {
    lines[i] == "" ==> lines[i + 1] != ""
  }

  ghost predicate NoDoubleBlank(lines: seq<string>) {
    forall i | 0 <= i < |lines| - 1 :: Apart(lines, i)
  }

  /** No two empty lines in a row, none at the start. */
  ghost predicate Spaced(lines: seq<string>) {
    NoDoubleBlank(lines) && (lines != [] ==> lines[0] != "")
  }

  ghost predicate GoodLines(lines: seq<string>, unsafe: string -> bool) {
    Spaced(lines) && forall i | 0 <= i < |lines| :: GoodLine(lines[i], unsafe)
  }

  lemma SpacedFront(lines: seq<string>)
    requires Spaced(lines) && lines != []
    ensures Spaced(lines[..|lines| - 1])
    ensures EndsBlank(lines) ==> |lines| > 1 && !EndsBlank(lines[..|lines| - 1])
  {
    var front := lines[..|lines| - 1];
    forall i | 0 <= i < |front| - 1
      ensures Apart(front, i)
    {
      assert Apart(lines, i);
    }
    assert |lines| > 1 ==> Apart(lines, |lines| - 2);
  }

  lemma SpacedMore(lines: seq<string>, line: string)
    requires Spaced(lines) && (line == "" ==> lines != [] && !EndsBlank(lines))
    ensures Spaced(lines + [line])
  {
    forall i | 0 <= i < |lines|
      ensures Apart(lines + [line], i)
    {
      assert i < |lines| - 1 ==> Apart(lines, i);
    }
  }

  lemma GoodFront(lines: seq<string>, unsafe: string -> bool)
    requires GoodLines(lines, unsafe) && lines != []
    ensures GoodLines(lines[..|lines| - 1], unsafe)
    ensures EndsBlank(lines) ==> |lines| > 1 && !EndsBlank(lines[..|lines| - 1])
  {
    SpacedFront(lines);
    var front := lines[..|lines| - 1];
    forall i | 0 <= i < |front|
      ensures GoodLine(front[i], unsafe)
    {
      assert GoodLine(lines[i], unsafe);
    }
  }

  ghost predicate GoodReport(text: string, unsafe: string -> bool) {
    && text != "" && Tight(text, IsSpace)
    && Split(text, '\n')[|Split(text, '\n')| - 1] != ""
    && GoodLines(Split(text, '\n'), unsafe)
  }

  lemma SameVerdict(a: string, b: string, unsafe: string -> bool)
    requires TrimInvariant(unsafe) && Clean(a) && Clean(b) && TrimSpace(a) == TrimSpace(b)
    ensures unsafe(a) == unsafe(b) && Blank(a) == Blank(b)
  {
  }

  /** Cutting white space off the ends of a good line leaves a good line. */
  lemma TrimmedGood(line: string, l: string, m: string, r: string, unsafe: string -> bool)
    requires TrimInvariant(unsafe) && GoodLine(line, unsafe)
    requires line == l + m + r && All(l, IsSpace) && All(r, IsSpace)
    requires m != "" && !IsSpace(m[|m| - 1])
    ensures GoodLine(m, unsafe)
  {
    assert forall i | 0 <= i < |m| :: m[i] == line[|l| + i];
    TrimPadded(l, m, r, IsSpace);
    SameVerdict(line, m, unsafe);
    BlankIsAllSpace(m);
    assert [] + m == m;
    TrimRightUnique(m, [], IsBlankChar);
    assert m + [] == m;
  }

  lemma {:induction false} ScreenGood(lines: seq<string>, unsafe: string -> bool)
    requires TrimInvariant(unsafe)
    requires forall i | 0 <= i < |lines| :: Clean(lines[i]) && '\n' !in lines[i]
    ensures forall line | line in Screen(lines, unsafe) :: GoodLine(line, unsafe)
  {
    if lines != [] {
      ScreenGood(lines[..|lines| - 1], unsafe);
      ScreenLineGood(lines[|lines| - 1], unsafe);
    }
  }

  lemma ScreenLineGood(raw: string, unsafe: string -> bool)
    requires TrimInvariant(unsafe) && Clean(raw) && '\n' !in raw
    ensures var line := TrimRight(raw, IsBlankChar);
            !unsafe(line) ==> GoodLine(if Blank(line) then "" else line, unsafe)
  {
    var line := TrimRight(raw, IsBlankChar);
    TrimRightCuts(raw, IsBlankChar);
    assert forall i | 0 <= i < |line| :: line[i] == raw[i];
    if Blank(line) {
      SameVerdict(line, "", unsafe);
    }
  }

  lemma {:induction false} SqueezeRun(lines: seq<string>, run: seq<string>)
    requires Squeeze(lines) != [] && !EndsBlank(Squeeze(lines)) && forall i | 0 <= i < |run| :: run[i] == ""
    ensures Squeeze(lines + run) == Squeeze(lines) + if run == [] then [] else [""]
  {
    if run == [] {
      assert lines + run == lines && Squeeze(lines) + [] == Squeeze(lines);
    } else {
      var front := run[..|run| - 1];
      SqueezeRun(lines, front);
      SqueezeOne(lines + front, "");
      assert lines + run == lines + front + [""];
    }
  }

  /** Between two lines with text any run of empty lines becomes one, and there is none where there was none. */
  lemma SqueezeGap(before: seq<string>, first: string, run: seq<string>, second: string)
    requires first != "" && second != "" && forall i | 0 <= i < |run| :: run[i] == ""
    ensures Squeeze(before + [first] + run + [second])
         == Squeeze(before) + [first] + (if run == [] then [] else [""]) + [second]
  {
    SqueezeOne(before, first);
    SqueezeRun(before + [first], run);
    SqueezeOne(before + [first] + run, second);
  }

  lemma {:induction false} SqueezeGood(lines: seq<string>, unsafe: string -> bool)
    requires forall line | line in lines :: GoodLine(line, unsafe)
    ensures GoodLines(Squeeze(lines), unsafe)
  {
    if lines != [] {
      var front, line := Squeeze(lines[..|lines| - 1]), lines[|lines| - 1];
      SqueezeGood(lines[..|lines| - 1], unsafe);
      if !(line == "" && (front == [] || EndsBlank(front))) {
        OneMoreGood(front, line, unsafe);
      }
    }
  }

  lemma OneMoreGood(front: seq<string>, line: string, unsafe: string -> bool)
    requires GoodLines(front, unsafe) && GoodLine(line, unsafe)
    requires line == "" ==> front != [] && !EndsBlank(front)
    ensures GoodLines(front + [line], unsafe)
  {
    SpacedMore(front, line);
    forall i | 0 <= i < |front + [line]|
      ensures GoodLine((front + [line])[i], unsafe)
    {
      assert i < |front| ==> GoodLine(front[i], unsafe);
    }
  }

  lemma {:induction false} SplitClean(text: string)
    requires Clean(text)
    ensures forall i | 0 <= i < |Split(text, '\n')| :: Clean(Split(text, '\n')[i])
  {
    if text != "" {
      SplitClean(text[1..]);
    }
  }

  lemma KeptGood(text: string, unsafe: string -> bool)
    requires TrimInvariant(unsafe)
    ensures GoodLines(Kept(text, unsafe), unsafe)
  {
    var lines := Lines(TrimSpace(text));
    SplitClean(StripControl(TrimSpace(text)));
    ScreenGood(lines, unsafe);
    SqueezeGood(Screen(lines, unsafe), unsafe);
  }

  lemma JoinFirst(l: string, m: string, rest: seq<string>)
    ensures Join([l + m] + rest, "\n") == l + Join([m] + rest, "\n")
  {
    assert ([l + m] + rest)[1..] == rest == ([m] + rest)[1..];
  }

  lemma JoinLast(front: seq<string>, m: string, r: string)
    ensures Join(front + [m + r], "\n") == Join(front + [m], "\n") + r
  {
    if front != [] {
      JoinAppend(front, [m + r], "\n");
      JoinAppend(front, [m], "\n");
    }
  }

  /** Trimming a join of lines trims its first line on the left and its last line on the right. */
  lemma TrimJoined(l: string, m: string, rest: seq<string>)
    requires All(l, IsSpace) && m != "" && !IsSpace(m[0])
    ensures TrimLeft(Join([l + m] + rest, "\n"), IsSpace) == Join([m] + rest, "\n")
  {
    JoinFirst(l, m, rest);
    var j := Join([m] + rest, "\n");
    assert j[0] == m[0];
    TrimLeftUnique(l, j, IsSpace);
  }

  lemma TrimFirst(lines: seq<string>)
    requires lines != [] && !Blank(lines[0])
    ensures TrimLeft(Join(lines, "\n"), IsSpace) == Join([TrimLeft(lines[0], IsSpace)] + lines[1..], "\n")
    ensures TrimLeft(lines[0], IsSpace) != ""
  {
    var m := TrimLeft(lines[0], IsSpace);
    TrimLeftCuts(lines[0], IsSpace);
    BlankIsAllSpace(lines[0]);
    var l := lines[0][..|lines[0]| - |m|];
    assert lines[0] == l + m && m != "";
    assert lines == [l + m] + lines[1..];
    TrimJoined(l, m, lines[1..]);
  }

  lemma JoinEnd(front: seq<string>, m: string)
    requires m != ""
    ensures var j := Join(front + [m], "\n");
            j != "" && j[|j| - 1] == m[|m| - 1]
  {
    assert "" + m == m;
    JoinLast(front, "", m);
  }

  lemma TrimLast(front: seq<string>, m: string, r: string)
    requires m != "" && !IsSpace(m[|m| - 1]) && All(r, IsSpace)
    ensures TrimRight(Join(front + [m + r], "\n"), IsSpace) == Join(front + [m], "\n")
  {
    JoinLast(front, m, r);
    JoinEnd(front, m);
    TrimRightUnique(Join(front + [m], "\n"), r, IsSpace);
  }

  lemma TrimRightParts(line: string) returns (r: string)
    requires !Blank(line)
    ensures line == TrimRight(line, IsSpace) + r && All(r, IsSpace) && TrimRight(line, IsSpace) != ""
  {
    TrimRightCuts(line, IsSpace);
    r := line[|TrimRight(line, IsSpace)|..];
    BlankIsAllSpace(line);
  }

  lemma TrimLeftJoin(first: string, middle: seq<string>, last: string)
    requires !Blank(first)
    ensures TrimLeft(Join([first] + middle + [last], "\n"), IsSpace)
         == Join(([TrimLeft(first, IsSpace)] + middle) + [last], "\n")
  {
    TrimFirst([first] + middle + [last]);
    assert ([first] + middle + [last])[1..] == middle + [last];
    assert ([TrimLeft(first, IsSpace)] + middle) + [last] == [TrimLeft(first, IsSpace)] + (middle + [last]);
  }

  lemma TrimSpaceJoin(first: string, middle: seq<string>, last: string)
    requires !Blank(first) && !Blank(last)
    ensures TrimSpace(Join([first] + middle + [last], "\n"))
         == Join([TrimLeft(first, IsSpace)] + middle + [TrimRight(last, IsSpace)], "\n")
  {
    TrimLeftJoin(first, middle, last);
    var r := TrimRightParts(last);
    TrimLast([TrimLeft(first, IsSpace)] + middle, TrimRight(last, IsSpace), r);
  }

  /** The lines of a trimmed join of good lines are again good lines. */
  lemma TrimmedJoin(lines: seq<string>, unsafe: string -> bool)
    requires TrimInvariant(unsafe) && GoodLines(lines, unsafe)
    requires lines != [] && lines[|lines| - 1] != ""
    ensures GoodReport(TrimSpace(Join(lines, "\n")), unsafe)
  {
    var n := |lines| - 1;
    assert GoodLine(lines[0], unsafe);
    if n == 0 {
      assert lines == [lines[0]];
      TrimmedLine(lines[0], unsafe);
    } else {
      FirstAndLast(lines);
      TrimmedLines(lines[0], lines[1..n], lines[n], unsafe);
    }
  }

  lemma FirstAndLast(lines: seq<string>)
    requires |lines| >= 2
    ensures [lines[0]] + lines[1..|lines| - 1] + [lines[|lines| - 1]] == lines
  {
  }

  lemma TrimmedLine(line: string, unsafe: string -> bool)
    requires TrimInvariant(unsafe) && GoodLine(line, unsafe) && line != ""
    ensures GoodReport(TrimSpace(Join([line], "\n")), unsafe)
  {
    var _, _ := TrimParts(line, IsSpace);
    TrimLeftGood(line, unsafe);
    TrimRightGood(TrimLeft(line, IsSpace), unsafe);
    ReportOfLines([TrimSpace(line)], TrimSpace(line), unsafe);
  }

  lemma TrimmedLines(first: string, middle: seq<string>, last: string, unsafe: string -> bool)
    requires TrimInvariant(unsafe) && GoodLines([first] + middle + [last], unsafe) && last != ""
    ensures GoodReport(TrimSpace(Join([first] + middle + [last], "\n")), unsafe)
  {
    var lines := [first] + middle + [last];
    assert GoodLine(lines[0], unsafe) && GoodLine(lines[|lines| - 1], unsafe);
    TrimLeftGood(first, unsafe);
    TrimRightGood(last, unsafe);
    NewEnds(first, middle, last, TrimLeft(first, IsSpace), TrimRight(last, IsSpace), unsafe);
    TrimmedText(first, middle, last);
    ReportOfLines([TrimLeft(first, IsSpace)] + middle + [TrimRight(last, IsSpace)],
                  TrimSpace(Join(lines, "\n")), unsafe);
  }

  lemma TrimmedText(first: string, middle: seq<string>, last: string)
    requires !Blank(first) && !Blank(last)
    ensures var text := TrimSpace(Join([first] + middle + [last], "\n"));
            && Tight(text, IsSpace)
            && text == Join([TrimLeft(first, IsSpace)] + middle + [TrimRight(last, IsSpace)], "\n")
  {
    var _, _ := TrimParts(Join([first] + middle + [last], "\n"), IsSpace);
    TrimSpaceJoin(first, middle, last);
  }

  lemma NewEnds(first: string, middle: seq<string>, last: string, f: string, l: string, unsafe: string -> bool)
    requires GoodLines([first] + middle + [last], unsafe)
    requires GoodLine(f, unsafe) && f != "" && GoodLine(l, unsafe) && l != ""
    ensures GoodLines([f] + middle + [l], unsafe)
  {
    var lines, ends := [first] + middle + [last], [f] + middle + [l];
    forall i | 0 <= i < |ends|
      ensures GoodLine(ends[i], unsafe)
    {
      assert 0 < i <= |middle| ==> ends[i] == lines[i] && GoodLine(lines[i], unsafe);
    }
    forall i | 0 <= i < |ends| - 1
      ensures Apart(ends, i)
    {
      assert Apart(lines, i);
    }
  }

  lemma ReportOfLines(lines: seq<string>, text: string, unsafe: string -> bool)
    requires GoodLines(lines, unsafe) && lines != [] && lines[|lines| - 1] != ""
    requires text == Join(lines, "\n") && Tight(text, IsSpace)
    ensures GoodReport(text, unsafe)
  {
    SingleLines(lines, unsafe);
    JoinSplit(lines, '\n');
    JoinNonEmpty(lines);
  }

  lemma SingleLines(lines: seq<string>, unsafe: string -> bool)
    requires GoodLines(lines, unsafe)
    ensures forall i | 0 <= i < |lines| :: '\n' !in lines[i]
  {
    assert forall i | 0 <= i < |lines| :: GoodLine(lines[i], unsafe);
  }

  lemma JoinNonEmpty(lines: seq<string>)
    requires lines != [] && lines[|lines| - 1] != ""
    ensures Join(lines, "\n") != ""
  {
    var n := |lines| - 1;
    assert lines == lines[..n] + [lines[n]];
    JoinEnd(lines[..n], lines[n]);
  }

  lemma TailGood(line: string, l: string, m: string, unsafe: string -> bool)
    requires TrimInvariant(unsafe) && GoodLine(line, unsafe)
    requires line == l + m && All(l, IsSpace) && m != "" && !IsBlankChar(m[|m| - 1]) && !Blank(m)
    ensures GoodLine(m, unsafe)
  {
    assert forall i | 0 <= i < |m| :: m[i] == line[|l| + i];
    assert line == l + m + [];
    TrimPadded(l, m, [], IsSpace);
    SameVerdict(line, m, unsafe);
    assert m + [] == m;
    TrimRightUnique(m, [], IsBlankChar);
  }

  lemma TrimLeftGood(line: string, unsafe: string -> bool)
    requires TrimInvariant(unsafe) && GoodLine(line, unsafe) && line != ""
    ensures TrimLeft(line, IsSpace) != "" && GoodLine(TrimLeft(line, IsSpace), unsafe)
  {
    var m := TrimLeft(line, IsSpace);
    TrimLeftCuts(line, IsSpace);
    BlankIsAllSpace(line);
    BlankIsAllSpace(m);
    assert !IsBlankChar(line[|line| - 1]);
    TailGood(line, line[..|line| - |m|], m, unsafe);
  }

  lemma TrimRightGood(line: string, unsafe: string -> bool)
    requires TrimInvariant(unsafe) && GoodLine(line, unsafe) && line != ""
    ensures TrimRight(line, IsSpace) != "" && GoodLine(TrimRight(line, IsSpace), unsafe)
  {
    var m := TrimRight(line, IsSpace);
    var r := RightPart(line, IsSpace);
    BlankIsAllSpace(line);
    assert [] + m == m;
    TrimmedGood(line, [], m, r, unsafe);
  }

  /** Whatever goes in: unless nothing is left and the fallback is shown, what comes out is a
      trimmed text of good lines without two empty lines in a row. */
  lemma SanitizedGood(text: string, unsafe: string -> bool)
    requires TrimInvariant(unsafe)
    ensures Kept(text, unsafe) == [] ==> Sanitized(text, unsafe) == FALLBACK
    ensures Kept(text, unsafe) != [] ==> GoodReport(Sanitized(text, unsafe), unsafe)
  {
    var kept := Kept(text, unsafe);
    KeptGood(text, unsafe);
    if kept != [] {
      TrimmedKept(kept, unsafe);
    }
  }

  lemma TrimmedKept(kept: seq<string>, unsafe: string -> bool)
    requires TrimInvariant(unsafe) && GoodLines(kept, unsafe) && kept != []
    ensures GoodReport(TrimSpace(Join(kept, "\n")), unsafe)
  {
    if EndsBlank(kept) {
      GoodFront(kept, unsafe);
      TrimmedWithBlank(kept[..|kept| - 1], unsafe);
      LastIsBlank(kept);
    } else {
      TrimmedJoin(kept, unsafe);
    }
  }

  lemma LastIsBlank(lines: seq<string>)
    requires EndsBlank(lines)
    ensures lines == lines[..|lines| - 1] + [""]
  {
  }

  lemma TrimmedWithBlank(front: seq<string>, unsafe: string -> bool)
    requires TrimInvariant(unsafe) && GoodLines(front, unsafe) && front != [] && !EndsBlank(front)
    ensures GoodReport(TrimSpace(Join(front + [""], "\n")), unsafe)
  {
    BlankLast(front);
    TrimmedJoin(front, unsafe);
  }

  lemma BlankLast(front: seq<string>)
    requires front != []
    ensures TrimSpace(Join(front + [""], "\n")) == TrimSpace(Join(front, "\n"))
  {
    JoinAppend(front, [""], "\n");
    var j := Join(front, "\n");
    assert Join(front + [""], "\n") == [] + j + "\n";
    TrimPadded([], j, "\n", IsSpace);
  }

  // --------------------------------------------------------------- fixed points

  lemma GoodLineStays(line: string, unsafe: string -> bool)
    requires GoodLine(line, unsafe)
    ensures ScreenLine(line, unsafe) == [line]
  {
  }

  lemma ScreenMore(front: seq<string>, line: string, unsafe: string -> bool)
    ensures Screen(front + [line], unsafe) == Screen(front, unsafe) + ScreenLine(line, unsafe)
  {
    assert (front + [line])[..|front|] == front;
  }

  predicate StaysAlone(line: string, unsafe: string -> bool) {
    ScreenLine(line, unsafe) == [line]
  }

  lemma {:induction false} ScreenFixed(lines: seq<string>, unsafe: string -> bool)
    requires forall line | line in lines :: StaysAlone(line, unsafe)
    ensures Screen(lines, unsafe) == lines
  {
    if lines != [] {
      var front, line := lines[..|lines| - 1], lines[|lines| - 1];
      assert lines == front + [line] && StaysAlone(line, unsafe);
      ScreenFixed(front, unsafe);
      ScreenMore(front, line, unsafe);
    }
  }

  lemma GoodLinesStay(lines: seq<string>, unsafe: string -> bool)
    requires GoodLines(lines, unsafe)
    ensures Screen(lines, unsafe) == lines
  {
    forall line | line in lines
      ensures StaysAlone(line, unsafe)
    {
      var i :| 0 <= i < |lines| && lines[i] == line;
      assert GoodLine(lines[i], unsafe);
      GoodLineStays(line, unsafe);
    }
    ScreenFixed(lines, unsafe);
  }

  lemma {:induction false} SqueezeFixed(lines: seq<string>)
    requires Spaced(lines)
    ensures Squeeze(lines) == lines
  {
    if lines != [] {
      SpacedFront(lines);
      SqueezeFixed(lines[..|lines| - 1]);
      LastSplit(lines);
    }
  }

  lemma {:induction false} CleanJoin(lines: seq<string>)
    requires forall i | 0 <= i < |lines| :: Clean(lines[i])
    ensures Clean(Join(lines, "\n"))
  {
    if |lines| > 1 {
      CleanJoin(lines[1..]);
      var first, rest := lines[0], Join(lines[1..], "\n");
      assert Clean(first) && Clean("\n") && Clean(rest);
    }
  }

  /** A text of good lines is published unchanged. */
  lemma GoodIsFixed(text: string, unsafe: string -> bool)
    requires GoodReport(text, unsafe)
    ensures Sanitized(text, unsafe) == text
  {
    var lines := Split(text, '\n');
    SplitJoin(text, '\n');
    CleanJoin(lines);
    StripClean(text);
    TrimTight(text, IsSpace);
    GoodLinesStay(lines, unsafe);
    SqueezeFixed(lines);
  }

  /** One line of printable ASCII without a space at either end. */
  ghost predicate PlainLine(line: string) {
    && line != "" && line[0] != ' ' && line[|line| - 1] != ' '
    && forall i | 0 <= i < |line| :: ' ' <= line[i] <= '~'
  }

  lemma FallbackIsPlain(text: string)
    requires text == FALLBACK
    ensures PlainLine(text)
  {
    var a, b := "Agent feedback was withheld because ", "it did not pass the public safety filter.";
    PrintableA(a);
    PrintableB(b);
    assert text == a + b;
  }

  lemma PrintableA(a: string)
    requires a == "Agent feedback was withheld because "
    ensures |a| == 36 && a[0] == 'A' && forall i | 0 <= i < |a| :: ' ' <= a[i] <= '~'
  {
  }

  lemma PrintableB(b: string)
    requires b == "it did not pass the public safety filter."
    ensures |b| == 41 && b[40] == '.' && forall i | 0 <= i < |b| :: ' ' <= b[i] <= '~'
  {
  }

  lemma PlainLineGood(line: string, unsafe: string -> bool)
    requires PlainLine(line) && !unsafe(line)
    ensures GoodReport(line, unsafe)
  {
    SplitNone(line, '\n');
    assert line + [] == line;
    TrimRightUnique(line, [], IsBlankChar);
    BlankIsAllSpace(line);
  }

  lemma PlainLineUnsafe(line: string, unsafe: string -> bool)
    requires PlainLine(line) && unsafe(line)
    ensures Sanitized(line, unsafe) == FALLBACK
  {
    TrimTight(line, IsSpace);
    StripClean(line);
    SplitNone(line, '\n');
    assert line + [] == line;
    TrimRightUnique(line, [], IsBlankChar);
    assert [line][..0] == [];
    assert Screen([line], unsafe) == [];
  }

  lemma FallbackFixed(unsafe: string -> bool)
    ensures Sanitized(FALLBACK, unsafe) == FALLBACK
  {
    FallbackIsPlain(FALLBACK);
    if unsafe(FALLBACK) {
      PlainLineUnsafe(FALLBACK, unsafe);
    } else {
      PlainLineGood(FALLBACK, unsafe);
      GoodIsFixed(FALLBACK, unsafe);
    }
  }

  /** A text is published unchanged exactly when it is a text of good lines, or the fallback. */
  lemma FixedExactly(text: string, unsafe: string -> bool)
    requires TrimInvariant(unsafe)
    ensures Sanitized(text, unsafe) == text <==> GoodReport(text, unsafe) || text == FALLBACK
  {
    FallbackFixed(unsafe);
    SanitizedGood(text, unsafe);
    if GoodReport(text, unsafe) {
      GoodIsFixed(text, unsafe);
    }
  }

  lemma SanitizeIdempotent(text: string, unsafe: string -> bool)
    requires TrimInvariant(unsafe)
    ensures Sanitized(Sanitized(text, unsafe), unsafe) == Sanitized(text, unsafe)
  {
    SanitizedGood(text, unsafe);
    FixedExactly(Sanitized(text, unsafe), unsafe);
  }

  /** No line of a published report fails the test. */
  lemma NoUnsafeLine(text: string, unsafe: string -> bool)
    requires TrimInvariant(unsafe) && !unsafe(FALLBACK)
    ensures GoodReport(Sanitized(text, unsafe), unsafe)
  {
    SanitizedGood(text, unsafe);
    FallbackIsPlain(FALLBACK);
    PlainLineGood(FALLBACK, unsafe);
  }

  // ------------------------------------------------------------------ the content

  /** The lines of a report that pass the test and are not blank, trimmed. */
  function ContentOf(lines: seq<string>, unsafe: string -> bool): seq<string> {
    if lines == [] then []
    else
      var line := lines[|lines| - 1];
      ContentOf(lines[..|lines| - 1], unsafe) + if unsafe(line) || Blank(line) then [] else [TrimSpace(line)]
  }

  function Content(text: string, unsafe: string -> bool): seq<string> {
    ContentOf(Lines(text), unsafe)
  }

  lemma {:induction false} ContentAppend(a: seq<string>, b: seq<string>, unsafe: string -> bool)
    ensures ContentOf(a + b, unsafe) == ContentOf(a, unsafe) + ContentOf(b, unsafe)
  {
    if b == [] {
      assert a + b == a;
    } else {
      var n := |b| - 1;
      assert (a + b)[..|a + b| - 1] == a + b[..n];
      ContentAppend(a, b[..n], unsafe);
    }
  }

  lemma ContentOne(line: string, unsafe: string -> bool)
    ensures ContentOf([line], unsafe) == if unsafe(line) || Blank(line) then [] else [TrimSpace(line)]
  {
    assert [line][..0] == [];
  }

  lemma SameContent(a: string, b: string, unsafe: string -> bool)
    requires TrimInvariant(unsafe) && Clean(a) && Clean(b) && TrimSpace(a) == TrimSpace(b)
    ensures ContentOf([a], unsafe) == ContentOf([b], unsafe)
  {
    ContentOne(a, unsafe);
    ContentOne(b, unsafe);
    SameVerdict(a, b, unsafe);
  }

  ghost predicate AllClean(lines: seq<string>) {
    forall i | 0 <= i < |lines| :: Clean(lines[i])
  }

  lemma CleanFront(lines: seq<string>)
    requires AllClean(lines) && lines != []
    ensures AllClean(lines[..|lines| - 1]) && Clean(lines[|lines| - 1])
  {
    var front := lines[..|lines| - 1];
    forall i | 0 <= i < |front|
      ensures Clean(front[i])
    {
      assert Clean(lines[i]);
    }
  }

  lemma ContentMore(lines: seq<string>, front: seq<string>, raw: string, unsafe: string -> bool)
    requires TrimInvariant(unsafe) && Clean(raw) && lines == front + [raw]
    requires ContentOf(Screen(front, unsafe), unsafe) == ContentOf(front, unsafe)
    ensures ContentOf(Screen(lines, unsafe), unsafe) == ContentOf(lines, unsafe)
  {
    ScreenMore(front, raw, unsafe);
    ScreenedLine(raw, unsafe);
    ContentAppend(front, [raw], unsafe);
    ContentAppend(Screen(front, unsafe), ScreenLine(raw, unsafe), unsafe);
  }

  lemma {:induction false} ScreenContent(lines: seq<string>, unsafe: string -> bool)
    requires TrimInvariant(unsafe) && AllClean(lines)
    ensures ContentOf(Screen(lines, unsafe), unsafe) == ContentOf(lines, unsafe)
  {
    if lines != [] {
      var front, last := lines[..|lines| - 1], lines[|lines| - 1];
      CleanFront(lines);
      ScreenContent(front, unsafe);
      LastSplit(lines);
      ContentMore(lines, front, last, unsafe);
    }
  }

  /** Trailing blanks do not change the verdict on a line. */
  lemma WithoutBlanks(raw: string, unsafe: string -> bool)
    requires TrimInvariant(unsafe) && Clean(raw)
    ensures var line := TrimRight(raw, IsBlankChar);
            Clean(line) && TrimSpace(line) == TrimSpace(raw)
  {
    var line := TrimRight(raw, IsBlankChar);
    TrimRightCuts(raw, IsBlankChar);
    assert forall i | 0 <= i < |line| :: line[i] == raw[i];
    assert raw == [] + line + raw[|line|..];
    TrimPadded([], line, raw[|line|..], IsSpace);
  }

  lemma ScreenedLine(raw: string, unsafe: string -> bool)
    requires TrimInvariant(unsafe) && Clean(raw)
    ensures ContentOf(ScreenLine(raw, unsafe), unsafe) == ContentOf([raw], unsafe)
  {
    var line := TrimRight(raw, IsBlankChar);
    WithoutBlanks(raw, unsafe);
    SameContent(raw, line, unsafe);
    ContentOne(line, unsafe);
    ContentOne("", unsafe);
  }

  lemma {:induction false} SqueezeContent(lines: seq<string>, unsafe: string -> bool)
    ensures ContentOf(Squeeze(lines), unsafe) == ContentOf(lines, unsafe)
  {
    if lines != [] {
      var n := |lines| - 1;
      SqueezeContent(lines[..n], unsafe);
      ContentOne(lines[n], unsafe);
      ContentAppend(Squeeze(lines[..n]), [lines[n]], unsafe);
    }
  }

  /** A character that is no line break goes to the last line. */
  lemma SplitSnoc(x: string, c: char) returns (front: seq<string>, last: string)
    requires c != '\n'
    ensures Split(x, '\n') == front + [last] && Split(x + [c], '\n') == front + [last + [c]]
  {
    var lines := Split(x, '\n');
    front, last := lines[..|lines| - 1], lines[|lines| - 1];
    assert lines == front + [last];
    SplitJoin(x, '\n');
    JoinLast(front, last, [c]);
    JoinSplit(front + [last + [c]], '\n');
  }

  lemma SpaceBefore(c: char, text: string, unsafe: string -> bool)
    requires TrimInvariant(unsafe) && IsSpace(c)
    ensures Content([c] + text, unsafe) == Content(text, unsafe)
  {
    StripAppend([c], text);
    var y := StripControl(text);
    assert StripControl([c]) == (if IsControl(c) then [] else [c]) by { assert [c][1..] == []; }
    if IsControl(c) {
      assert [] + y == y;
    } else if c == '\n' {
      assert Lines([c] + text) == [""] + Lines(text) by { assert ([c] + y)[1..] == y; }
      ContentOne("", unsafe);
      ContentAppend([""], Lines(text), unsafe);
    } else {
      var lines := Lines(text);
      assert Lines([c] + text) == [[c] + lines[0]] + lines[1..] by { assert ([c] + y)[1..] == y; }
      assert lines == [lines[0]] + lines[1..];
      SplitClean(y);
      assert [c] + lines[0] == [c] + lines[0] + [];
      TrimPadded([c], lines[0], [], IsSpace);
      SameContent([c] + lines[0], lines[0], unsafe);
      ContentAppend([[c] + lines[0]], lines[1..], unsafe);
      ContentAppend([lines[0]], lines[1..], unsafe);
    }
  }

  lemma SpaceAfter(c: char, text: string, unsafe: string -> bool)
    requires TrimInvariant(unsafe) && IsSpace(c)
    ensures Content(text + [c], unsafe) == Content(text, unsafe)
  {
    StripAppend(text, [c]);
    var y := StripControl(text);
    assert StripControl([c]) == (if IsControl(c) then [] else [c]) by { assert [c][1..] == []; }
    if IsControl(c) {
      assert y + [] == y;
    } else if c == '\n' {
      SplitAppend(y, "", '\n');
      assert y + [c] + "" == y + [c];
      ContentOne("", unsafe);
      ContentAppend(Lines(text), [""], unsafe);
    } else {
      SplitClean(y);
      var front, last := SplitSnoc(y, c);
      LastLine(front, last, c, unsafe);
    }
  }

  lemma LastLine(front: seq<string>, last: string, c: char, unsafe: string -> bool)
    requires TrimInvariant(unsafe) && IsSpace(c) && !IsControl(c)
    requires forall i | 0 <= i < |front + [last]| :: Clean((front + [last])[i])
    ensures ContentOf(front + [last + [c]], unsafe) == ContentOf(front + [last], unsafe)
  {
    assert Clean((front + [last])[|front|]);
    assert last + [c] == [] + last + [c];
    TrimPadded([], last, [c], IsSpace);
    SameContent(last + [c], last, unsafe);
    ContentAppend(front, [last + [c]], unsafe);
    ContentAppend(front, [last], unsafe);
  }

  lemma {:induction false} SpacesBefore(l: string, text: string, unsafe: string -> bool)
    requires TrimInvariant(unsafe) && All(l, IsSpace)
    ensures Content(l + text, unsafe) == Content(text, unsafe)
  {
    if l == "" {
      assert l + text == text;
    } else {
      SpacesBefore(l[1..], text, unsafe);
      SpaceBefore(l[0], l[1..] + text, unsafe);
      assert l + text == [l[0]] + (l[1..] + text);
    }
  }

  lemma {:induction false} SpacesAfter(text: string, r: string, unsafe: string -> bool)
    requires TrimInvariant(unsafe) && All(r, IsSpace)
    ensures Content(text + r, unsafe) == Content(text, unsafe)
  {
    if r == "" {
      assert text + r == text;
    } else {
      var n := |r| - 1;
      SpacesAfter(text, r[..n], unsafe);
      SpaceAfter(r[n], text + r[..n], unsafe);
      assert text + r == (text + r[..n]) + [r[n]];
    }
  }

  lemma ContentTrim(text: string, unsafe: string -> bool)
    requires TrimInvariant(unsafe)
    ensures Content(TrimSpace(text), unsafe) == Content(text, unsafe)
  {
    var l, r := TrimParts(text, IsSpace);
    SpacesAfter(l + TrimSpace(text), r, unsafe);
    SpacesBefore(l, TrimSpace(text), unsafe);
  }

  lemma ContentJoin(lines: seq<string>, unsafe: string -> bool)
    requires lines != [] && forall i | 0 <= i < |lines| :: Clean(lines[i]) && '\n' !in lines[i]
    ensures Content(Join(lines, "\n"), unsafe) == ContentOf(lines, unsafe)
  {
    CleanJoin(lines);
    StripClean(Join(lines, "\n"));
    JoinSplit(lines, '\n');
  }

  /** The filter publishes every line of content in order, and the fallback only when there is none. */
  lemma SanitizeKeepsContent(text: string, unsafe: string -> bool)
    requires TrimInvariant(unsafe) && !unsafe(FALLBACK)
    ensures Content(text, unsafe) == [] ==> Sanitized(text, unsafe) == FALLBACK
    ensures Content(Sanitized(text, unsafe), unsafe)
         == if Content(text, unsafe) == [] then [FALLBACK] else Content(text, unsafe)
  {
    var kept, lines := Kept(text, unsafe), Lines(TrimSpace(text));
    ContentTrim(text, unsafe);
    SplitClean(StripControl(TrimSpace(text)));
    ScreenContent(lines, unsafe);
    SqueezeContent(Screen(lines, unsafe), unsafe);
    assert ContentOf(kept, unsafe) == Content(text, unsafe);
    KeptGood(text, unsafe);
    FallbackContent(unsafe);
    if kept != [] {
      assert forall i | 0 <= i < |kept| :: GoodLine(kept[i], unsafe);
      ContentJoin(kept, unsafe);
      ContentTrim(Join(kept, "\n"), unsafe);
      SanitizedGood(text, unsafe);
      FirstContent(kept, unsafe);
    }
  }

  lemma FallbackContent(unsafe: string -> bool)
    requires !unsafe(FALLBACK)
    ensures Content(FALLBACK, unsafe) == [FALLBACK]
  {
    FallbackIsPlain(FALLBACK);
    PlainContent(FALLBACK, unsafe);
  }

  lemma PlainContent(line: string, unsafe: string -> bool)
    requires PlainLine(line) && !unsafe(line)
    ensures Content(line, unsafe) == [line]
  {
    StripClean(line);
    SplitNone(line, '\n');
    TrimTight(line, IsSpace);
    ContentOne(line, unsafe);
  }

  lemma FirstContent(lines: seq<string>, unsafe: string -> bool)
    requires GoodLines(lines, unsafe) && lines != []
    ensures ContentOf(lines, unsafe) != []
  {
    assert GoodLine(lines[0], unsafe) && lines == [lines[0]] + lines[1..];
    ContentOne(lines[0], unsafe);
    ContentAppend([lines[0]], lines[1..], unsafe);
  }

  // ----------------------------------------------------------------- the appender

  /** appendPublicSection of internal/worker/worker.go. */
  function AppendSection(report: string, section: string): string {
    var s, r := TrimSpace(section), TrimSpace(report);
    if s == "" then r else if r == "" then s else r + "\n\n" + s
  }

  lemma AppendTight(report: string, section: string)
    ensures Tight(AppendSection(report, section), IsSpace)
    ensures AppendSection(report, section) == "" <==> Blank(report) && Blank(section)
  {
    var _, _ := TrimParts(report, IsSpace);
    var _, _ := TrimParts(section, IsSpace);
  }

  /** Sections may be appended in any grouping, and blank text adds nothing. */
  lemma AppendMonoid(a: string, b: string, c: string)
    ensures AppendSection(AppendSection(a, b), c) == AppendSection(a, AppendSection(b, c))
    ensures Blank(b) ==> AppendSection(a, b) == TrimSpace(a) && AppendSection(b, a) == TrimSpace(a)
  {
    AppendTight(a, b);
    AppendTight(b, c);
    TrimTight(AppendSection(a, b), IsSpace);
    TrimTight(AppendSection(b, c), IsSpace);
    var x, y, z := TrimSpace(a), TrimSpace(b), TrimSpace(c);
    assert x + "\n\n" + (y + "\n\n" + z) == (x + "\n\n" + y) + "\n\n" + z;
  }

  /** Two texts are joined with an empty line between them, and without the white space at their ends. */
  lemma AppendedText(l: string, a: string, r: string, k: string, b: string, q: string)
    requires All(l, IsSpace) && All(r, IsSpace) && All(k, IsSpace) && All(q, IsSpace)
    requires a != "" && Tight(a, IsSpace) && b != "" && Tight(b, IsSpace)
    ensures AppendSection(l + a + r, k + b + q) == a + "\n\n" + b
  {
    TrimUnique(l, a, r, IsSpace);
    TrimUnique(k, b, q, IsSpace);
  }

  /** The content of a joined report is the content of its parts, in order. */
  lemma AppendContent(report: string, section: string, unsafe: string -> bool)
    requires TrimInvariant(unsafe)
    ensures Content(AppendSection(report, section), unsafe) == Content(report, unsafe) + Content(section, unsafe)
  {
    ContentTrim(report, unsafe);
    ContentTrim(section, unsafe);
    EmptyContent(unsafe);
    SpacedContent(TrimSpace(report), TrimSpace(section), unsafe);
  }

  lemma NewlineAfter(r: string, unsafe: string -> bool)
    ensures Content(r + "\n", unsafe) == Content(r, unsafe)
  {
    EmptyContent(unsafe);
    JoinedContent(r, "", unsafe);
    assert r + "\n" + "" == r + "\n";
  }

  lemma SpacedContent(r: string, s: string, unsafe: string -> bool)
    ensures Content(r + "\n\n" + s, unsafe) == Content(r, unsafe) + Content(s, unsafe)
  {
    NewlineAfter(r, unsafe);
    JoinedContent(r + "\n", s, unsafe);
    assert (r + "\n") + "\n" + s == r + "\n\n" + s;
  }

  lemma EmptyContent(unsafe: string -> bool)
    ensures Content("", unsafe) == []
  {
    ContentOne("", unsafe);
  }

  lemma JoinedContent(a: string, b: string, unsafe: string -> bool)
    ensures Content(a + "\n" + b, unsafe) == Content(a, unsafe) + Content(b, unsafe)
  {
    StripAppend(a + "\n", b);
    StripAppend(a, "\n");
    StripClean("\n");
    SplitAppend(StripControl(a), StripControl(b), '\n');
    ContentAppend(Lines(a), Lines(b), unsafe);
  }

  /** Publishing a joined report publishes the content of its parts, in order. */
  lemma SanitizeDistributes(report: string, section: string, unsafe: string -> bool)
    requires TrimInvariant(unsafe) && !unsafe(FALLBACK)
    ensures var both := Content(report, unsafe) + Content(section, unsafe);
            Content(Sanitized(AppendSection(report, section), unsafe), unsafe)
            == if both == [] then [FALLBACK] else both
  {
    AppendContent(report, section, unsafe);
    SanitizeKeepsContent(AppendSection(report, section), unsafe);
  }
}
