/** internal/publicartifact: the lines of a document that are shown in a public report. */
module Previews {
  import opened Text
  import opened PublicReport

  // ------------------------------------------------------------------ accepted lines

  predicate Harmless(line: string, unsafe: string -> bool) {
    Sanitized(line, unsafe) == line
  }

  /** addLine */
  function AddLine(kept: seq<string>, raw: string, unsafe: string -> bool): seq<string> {
    var line := TrimRight(raw, IsBlankChar);
    if line == "" || !Harmless(line, unsafe) then kept else kept + [line]
  }

  predicate AcceptsPlanLine(line: string, unsafe: string -> bool) {
    line != "" && Harmless(TrimSpace(line), unsafe)
  }

  /** What every extractor collects: empty lines, and single lines that are harmless by themselves. */
  ghost predicate Accepted(line: string, unsafe: string -> bool) {
    '\n' !in line && (line == "" || Harmless(TrimSpace(line), unsafe))
  }

  ghost predicate AllAccepted(lines: seq<string>, unsafe: string -> bool) {
    forall i | 0 <= i < |lines| :: Accepted(lines[i], unsafe)
  }

  /** Harmless text is never blank: the filter publishes something for everything. */
  lemma HarmlessShows(line: string, unsafe: string -> bool)
    requires TrimInvariant(unsafe) && !unsafe(FALLBACK)
    requires '\n' !in line && Harmless(TrimSpace(line), unsafe)
    ensures !Blank(line) && Content(line, unsafe) == [TrimSpace(line)]
  {
    var t := TrimSpace(line);
    NoUnsafeLine(t, unsafe);
    ContentTrim(line, unsafe);
    var l, r := TrimParts(line, IsSpace);
    assert '\n' !in t;
    SplitNone(t, '\n');
    StripClean(t);
    ContentOne(t, unsafe);
    TrimIdempotent(line, IsSpace);
  }

  /** The lines of a preview that say something, as they appear in a report. */
  function Said(lines: seq<string>): seq<string> {
    if lines == [] then []
    else
      var last := lines[|lines| - 1];
      Said(lines[..|lines| - 1]) + if last == "" then [] else [TrimSpace(last)]
  }

  lemma AcceptedFront(lines: seq<string>, unsafe: string -> bool)
    requires lines != [] && AllAccepted(lines, unsafe)
    ensures lines == lines[..|lines| - 1] + [lines[|lines| - 1]]
    ensures AllAccepted(lines[..|lines| - 1], unsafe) && Accepted(lines[|lines| - 1], unsafe)
  {
    var front := lines[..|lines| - 1];
    LastSplit(lines);
    forall i | 0 <= i < |front|
      ensures Accepted(front[i], unsafe)
    {
      assert Accepted(lines[i], unsafe);
    }
    assert Accepted(lines[|lines| - 1], unsafe);
  }

  lemma LineSaid(line: string, unsafe: string -> bool)
    requires TrimInvariant(unsafe) && !unsafe(FALLBACK) && Accepted(line, unsafe)
    ensures Content(line, unsafe) == if line == "" then [] else [TrimSpace(line)]
  {
    if line == "" {
      EmptyContent(unsafe);
    } else {
      HarmlessShows(line, unsafe);
    }
  }

  lemma JoinContent(front: seq<string>, last: string, unsafe: string -> bool)
    requires front != []
    ensures Content(Join(front + [last], "\n"), unsafe) == Content(Join(front, "\n"), unsafe) + Content(last, unsafe)
  {
    JoinAppend(front, [last], "\n");
    JoinedContent(Join(front, "\n"), last, unsafe);
  }

  lemma {:induction false} SaidIsContent(lines: seq<string>, unsafe: string -> bool)
    requires TrimInvariant(unsafe) && !unsafe(FALLBACK) && AllAccepted(lines, unsafe)
    ensures Content(Join(lines, "\n"), unsafe) == Said(lines)
  {
    if lines == [] {
      EmptyContent(unsafe);
    } else {
      var front, last := lines[..|lines| - 1], lines[|lines| - 1];
      AcceptedFront(lines, unsafe);
      SaidIsContent(front, unsafe);
      SaidOne(lines, front, last, unsafe);
    }
  }

  lemma SaidOne(lines: seq<string>, front: seq<string>, last: string, unsafe: string -> bool)
    requires TrimInvariant(unsafe) && !unsafe(FALLBACK) && Accepted(last, unsafe)
    requires lines == front + [last] && Content(Join(front, "\n"), unsafe) == Said(front)
    ensures Content(Join(lines, "\n"), unsafe) == Said(lines)
  {
    LineSaid(last, unsafe);
    assert lines[..|lines| - 1] == front;
    if front != [] {
      JoinContent(front, last, unsafe);
    }
  }

  /** Whatever stands around a preview: when the whole report goes through the filter, every line that
      was accepted is still there, in order, and nothing of its surroundings is lost to it. */
  lemma PreviewSurvives(before: string, lines: seq<string>, after: string, unsafe: string -> bool)
    requires TrimInvariant(unsafe) && !unsafe(FALLBACK) && AllAccepted(lines, unsafe) && Said(lines) != []
    ensures Content(Sanitized(before + "\n" + Join(lines, "\n") + "\n" + after, unsafe), unsafe)
         == Content(before, unsafe) + Said(lines) + Content(after, unsafe)
  {
    SaidIsContent(lines, unsafe);
    JoinedContent(before, Join(lines, "\n"), unsafe);
    JoinedContent(before + "\n" + Join(lines, "\n"), after, unsafe);
    SanitizeKeepsContent(before + "\n" + Join(lines, "\n") + "\n" + after, unsafe);
  }

  // ------------------------------------------------------------- the two plain extractors

  lemma AddLineAccepted(kept: seq<string>, raw: string, unsafe: string -> bool)
    requires TrimInvariant(unsafe) && !unsafe(FALLBACK) && AllAccepted(kept, unsafe) && '\n' !in raw
    ensures AllAccepted(AddLine(kept, raw, unsafe), unsafe)
  {
    var line := TrimRight(raw, IsBlankChar);
    if line != "" && Harmless(line, unsafe) {
      NoUnsafeLine(line, unsafe);
      TrimTight(line, IsSpace);
      TrimRightCuts(raw, IsBlankChar);
      assert Accepted(line, unsafe);
    }
  }

  /** The lines of a text file, whatever its line ends. */
  function FileLines(body: string): seq<string> {
    Split(ReplaceAll(body, "\r\n", "\n"), '\n')
  }

  lemma ReturnStays(c: char, s: string)
    requires c != '\r'
    ensures ReplaceAll([c] + s, "\r\n", "\n") == [c] + ReplaceAll(s, "\r\n", "\n")
  {
    assert ([c] + s)[1..] == s;
  }

  lemma ReturnGoes(s: string)
    ensures ReplaceAll("\r\n" + s, "\r\n", "\n") == "\n" + ReplaceAll(s, "\r\n", "\n")
  {
    assert ("\r\n" + s)[2..] == s;
  }

  lemma {:induction false} LineStays(a: string, rest: string)
    requires '\r' !in a
    ensures ReplaceAll(a + rest, "\r\n", "\n") == a + ReplaceAll(rest, "\r\n", "\n")
  {
    if a == "" {
      assert a + rest == rest;
    } else {
      LineStays(a[1..], rest);
      assert a + rest == [a[0]] + (a[1..] + rest);
      ReturnStays(a[0], a[1..] + rest);
    }
  }

  lemma LineEndGoes(a: string, b: string)
    requires '\r' !in a
    ensures ReplaceAll(a + "\r\n" + b, "\r\n", "\n") == a + "\n" + ReplaceAll(b, "\r\n", "\n")
    ensures ReplaceAll(a + "\n" + b, "\r\n", "\n") == a + "\n" + ReplaceAll(b, "\r\n", "\n")
  {
    Regroup(a, "\r\n", b);
    LineStays(a, "\r\n" + b);
    ReturnGoes(b);
    Regroup(a, "\n", b);
    LineStays(a, "\n" + b);
    ReturnStays('\n', b);
    Regroup(a, "\n", ReplaceAll(b, "\r\n", "\n"));
  }

  /** Lines end with a newline, with or without a carriage return before it. */
  lemma FileLinesMore(line: string, body: string)
    requires '\r' !in line && '\n' !in line
    ensures FileLines(line + "\n" + body) == [line] + FileLines(body)
    ensures FileLines(line + "\r\n" + body) == [line] + FileLines(body)
  {
    LineEndGoes(line, body);
    SplitAppend(line, ReplaceAll(body, "\r\n", "\n"), '\n');
    SplitNone(line, '\n');
  }

  lemma TrimHasNoNewline(s: string)
    requires '\n' !in s
    ensures '\n' !in TrimSpace(s)
  {
    var l, r := TrimParts(s, IsSpace);
    assert forall c | c in TrimSpace(s) :: c in s;
  }

  function GenericLines(lines: seq<string>, unsafe: string -> bool): seq<string> {
    if lines == [] then []
    else
      var kept, line := GenericLines(lines[..|lines| - 1], unsafe), TrimSpace(lines[|lines| - 1]);
      if line == "" then kept else AddLine(kept, line, unsafe)
  }

  /** extractGenericLines */
  method ExtractGenericLines(body: string, unsafe: string -> bool) returns (kept: seq<string>)
    ensures kept == GenericLines(FileLines(body), unsafe)
  {
    var lines := FileLines(body);
    kept := [];
    for i := 0 to |lines|
      invariant kept == GenericLines(lines[..i], unsafe)
    {
      assert lines[..i + 1][..i] == lines[..i];
      var line := TrimSpace(lines[i]);
      if line == "" {
        continue;
      }
      kept := AddLine(kept, line, unsafe);
    }
    assert lines[..|lines|] == lines;
  }

  ghost predicate SingleLines(lines: seq<string>) {
    forall i | 0 <= i < |lines| :: '\n' !in lines[i]
  }

  lemma {:induction false} GenericAccepted(lines: seq<string>, unsafe: string -> bool)
    requires TrimInvariant(unsafe) && !unsafe(FALLBACK) && SingleLines(lines)
    ensures AllAccepted(GenericLines(lines, unsafe), unsafe)
  {
    if lines != [] {
      GenericAccepted(lines[..|lines| - 1], unsafe);
      TrimHasNoNewline(lines[|lines| - 1]);
      AddLineAccepted(GenericLines(lines[..|lines| - 1], unsafe), TrimSpace(lines[|lines| - 1]), unsafe);
    }
  }

  // --------------------------------------------------------------- the plan extractor

  predicate IsFence(line: string) {
    HasPrefix(TrimSpace(line), "```")
  }

  /** What the loop over the lines of a plan carries along. */
  datatype Plan = Plan(kept: seq<string>, blank: bool, inFence: bool)

  function Offer(p: Plan, line: string, unsafe: string -> bool): Plan {
    if AcceptsPlanLine(line, unsafe) then p.(kept := p.kept + [line], blank := false) else p
  }

  /** The effect of one line. */
  function PlanStep(p: Plan, raw: string, unsafe: string -> bool): Plan {
    var line := TrimRight(raw, IsBlankChar);
    var trimmed := TrimSpace(line);
    if HasPrefix(trimmed, "```") then
      if AcceptsPlanLine(trimmed, unsafe) then Offer(p, trimmed, unsafe).(inFence := !p.inFence) else p
    else if p.inFence then Offer(p, line, unsafe)
    else if trimmed == "" then
      if p.kept == [] || p.blank then p else p.(kept := p.kept + [""], blank := true)
    else if HasPrefix(trimmed, ">") || Contains(trimmed, "For agentic workers") then p
    else Offer(p, ReplaceFirst(line, "- [ ] ", "- "), unsafe)
  }

  function PlanOf(lines: seq<string>, unsafe: string -> bool): Plan {
    if lines == [] then Plan([], false, false)
    else PlanStep(PlanOf(lines[..|lines| - 1], unsafe), lines[|lines| - 1], unsafe)
  }

  function DropBlankStart(lines: seq<string>): seq<string> {
    if lines != [] && Blank(lines[0]) then DropBlankStart(lines[1..]) else lines
  }

  function DropBlankEnd(lines: seq<string>): seq<string> {
    if lines != [] && Blank(lines[|lines| - 1]) then DropBlankEnd(lines[..|lines| - 1]) else lines
  }

  lemma DropOneMore(lines: seq<string>, start: nat, end: nat)
    requires start < end <= |lines| && Blank(lines[end - 1])
    ensures DropBlankEnd(lines[start..end]) == DropBlankEnd(lines[start..end - 1])
  {
    var part := lines[start..end];
    assert part[..|part| - 1] == lines[start..end - 1] && part[|part| - 1] == lines[end - 1];
  }

  lemma DropFirst(lines: seq<string>, start: nat)
    requires start < |lines| && Blank(lines[start])
    ensures DropBlankStart(lines[start..]) == DropBlankStart(lines[start + 1..])
  {
    assert lines[start..][1..] == lines[start + 1..] && lines[start..][0] == lines[start];
  }

  method BlankStart(lines: seq<string>) returns (start: nat)
    ensures start <= |lines| && lines[start..] == DropBlankStart(lines)
  {
    start := 0;
    while start < |lines| && TrimSpace(lines[start]) == ""
      invariant start <= |lines|
      invariant DropBlankStart(lines[start..]) == DropBlankStart(lines)
    {
      DropFirst(lines, start);
      start := start + 1;
    }
  }

  method BlankEnd(lines: seq<string>, start: nat) returns (end: nat)
    requires start <= |lines|
    ensures start <= end <= |lines| && lines[start..end] == DropBlankEnd(lines[start..])
  {
    end := |lines|;
    ghost var goal := DropBlankEnd(lines[start..]);
    assert lines[start..end] == lines[start..];
    while end > start && TrimSpace(lines[end - 1]) == ""
      invariant start <= end <= |lines|
      invariant DropBlankEnd(lines[start..end]) == goal
    {
      DropOneMore(lines, start, end);
      end := end - 1;
    }
  }

  method TrimBlankLines(lines: seq<string>) returns (r: seq<string>)
    ensures r == DropBlankEnd(DropBlankStart(lines))
  {
    var start := BlankStart(lines);
    var end := BlankEnd(lines, start);
    return lines[start..end];
  }

  method ExtractPlanMarkdownLines(body: string, unsafe: string -> bool) returns (r: seq<string>)
    ensures r == DropBlankEnd(DropBlankStart(PlanOf(FileLines(body), unsafe).kept))
  {
    var lines := FileLines(body);
    var kept: seq<string> := [];
    var blank, inFence := false, false;
    for i := 0 to |lines|
      invariant Plan(kept, blank, inFence) == PlanOf(lines[..i], unsafe)
    {
      assert lines[..i + 1][..i] == lines[..i];
      var line := TrimRight(lines[i], IsBlankChar);
      var trimmed := TrimSpace(line);
      if HasPrefix(trimmed, "```") {
        if AcceptsPlanLine(trimmed, unsafe) {
          kept := kept + [trimmed];
          inFence := !inFence;
          blank := false;
        }
        continue;
      }
      if inFence {
        if AcceptsPlanLine(line, unsafe) {
          kept := kept + [line];
          blank := false;
        }
        continue;
      }
      if trimmed == "" {
        if kept == [] || blank {
          continue;
        }
        kept := kept + [""];
        blank := true;
        continue;
      }
      if HasPrefix(trimmed, ">") || Contains(trimmed, "For agentic workers") {
        continue;
      }
      line := ReplaceFirst(line, "- [ ] ", "- ");
      if AcceptsPlanLine(line, unsafe) {
        kept := kept + [line];
        blank := false;
      }
    }
    assert lines[..|lines|] == lines;
    r := TrimBlankLines(kept);
  }

  /** How many fence lines there are, and whether their number is odd. */
  function Fences(lines: seq<string>): nat {
    if lines == [] then 0 else Fences(lines[..|lines| - 1]) + if IsFence(lines[|lines| - 1]) then 1 else 0
  }

  predicate FenceOpen(lines: seq<string>) {
    lines != [] && FenceOpen(lines[..|lines| - 1]) != IsFence(lines[|lines| - 1])
  }

  lemma {:induction false} FenceOpenIsOdd(lines: seq<string>)
    ensures FenceOpen(lines) <==> Fences(lines) % 2 == 1
  {
    if lines != [] {
      FenceOpenIsOdd(lines[..|lines| - 1]);
    }
  }

  /** What the loop keeps: the flags tell the truth about the lines kept so far. */
  ghost predicate PlanOk(p: Plan, unsafe: string -> bool) {
    && AllAccepted(p.kept, unsafe) && Spaced(p.kept)
    && (p.blank <==> EndsBlank(p.kept))
    && (p.inFence <==> FenceOpen(p.kept))
  }

  lemma FencesOne(lines: seq<string>, line: string)
    ensures FenceOpen(lines + [line]) <==> FenceOpen(lines) != IsFence(line)
  {
    assert (lines + [line])[..|lines|] == lines;
  }

  lemma AcceptedMore(lines: seq<string>, line: string, unsafe: string -> bool)
    requires AllAccepted(lines, unsafe) && Accepted(line, unsafe)
    ensures AllAccepted(lines + [line], unsafe)
  {
    forall i | 0 <= i < |lines + [line]|
      ensures Accepted((lines + [line])[i], unsafe)
    {
      assert i < |lines| ==> Accepted(lines[i], unsafe);
    }
  }

  lemma KeptOk(p: Plan, line: string, blank: bool, inFence: bool, unsafe: string -> bool)
    requires PlanOk(p, unsafe) && Accepted(line, unsafe)
    requires line == "" ==> p.kept != [] && !p.blank
    requires (blank <==> line == "") && (inFence <==> p.inFence != IsFence(line))
    ensures PlanOk(Plan(p.kept + [line], blank, inFence), unsafe)
  {
    AcceptedMore(p.kept, line, unsafe);
    SpacedMore(p.kept, line);
    FencesOne(p.kept, line);
  }

  lemma OfferOk(p: Plan, line: string, unsafe: string -> bool)
    requires PlanOk(p, unsafe) && '\n' !in line && !IsFence(line)
    ensures PlanOk(Offer(p, line, unsafe), unsafe)
  {
    if AcceptsPlanLine(line, unsafe) {
      KeptOk(p, line, false, p.inFence, unsafe);
    }
  }

  lemma FenceOk(p: Plan, line: string, unsafe: string -> bool)
    requires PlanOk(p, unsafe) && '\n' !in line && IsFence(line) && AcceptsPlanLine(line, unsafe)
    ensures PlanOk(Offer(p, line, unsafe).(inFence := !p.inFence), unsafe)
  {
    KeptOk(p, line, false, !p.inFence, unsafe);
  }

  lemma BlankOk(p: Plan, unsafe: string -> bool)
    requires PlanOk(p, unsafe) && p.kept != [] && !p.blank
    ensures PlanOk(p.(kept := p.kept + [""], blank := true), unsafe)
  {
    assert !IsFence("");
    KeptOk(p, "", true, p.inFence, unsafe);
  }

  // Ticking off a list item makes no fence.

  predicate StartsFence(line: string) {
    if line != "" && IsSpace(line[0]) then StartsFence(line[1..]) else HasPrefix(line, "```")
  }

  lemma {:induction false} FenceByStart(line: string)
    ensures StartsFence(line) <==> HasPrefix(TrimLeft(line, IsSpace), "```")
  {
    if line != "" && IsSpace(line[0]) {
      FenceByStart(line[1..]);
    }
  }

  lemma PrefixOfTrimmed(t: string)
    ensures HasPrefix(TrimRight(t, IsSpace), "```") <==> HasPrefix(t, "```")
  {
    TrimRightCuts(t, IsSpace);
    var r := TrimRight(t, IsSpace);
    assert |r| < |t| ==> IsSpace(t[|r|..][0]);
  }

  lemma FenceExactly(line: string)
    ensures IsFence(line) <==> StartsFence(line)
  {
    FenceByStart(line);
    PrefixOfTrimmed(TrimLeft(line, IsSpace));
  }

  lemma ReplaceKeepsFirst(s: string)
    ensures s == "" ==> ReplaceFirst(s, "- [ ] ", "- ") == ""
    ensures s != "" ==> ReplaceFirst(s, "- [ ] ", "- ") != "" && ReplaceFirst(s, "- [ ] ", "- ")[0] == s[0]
  {
  }

  lemma TicksStay(s: string)
    ensures HasPrefix(ReplaceFirst(s, "- [ ] ", "- "), "```") ==> HasPrefix(s, "```")
  {
    var r := ReplaceFirst(s, "- [ ] ", "- ");
    ReplaceKeepsFirst(s);
    if HasPrefix(r, "```") {
      assert r[0] == '`' && r == [s[0]] + ReplaceFirst(s[1..], "- [ ] ", "- ");
      ReplaceKeepsFirst(s[1..]);
      assert r[1] == '`';
      ReplaceKeepsFirst(s[1..][1..]);
      assert r[2] == '`';
    }
  }

  lemma {:induction false} NoFenceByTicking(line: string)
    requires !StartsFence(line)
    ensures !StartsFence(ReplaceFirst(line, "- [ ] ", "- "))
  {
    if line != "" && IsSpace(line[0]) {
      assert !HasPrefix(line, "- [ ] ");
      NoFenceByTicking(line[1..]);
      assert ([line[0]] + ReplaceFirst(line[1..], "- [ ] ", "- "))[1..] == ReplaceFirst(line[1..], "- [ ] ", "- ");
    } else {
      TicksStay(line);
      ReplaceKeepsFirst(line);
    }
  }

  lemma {:induction false} ReplaceHasNoNewline(line: string)
    requires '\n' !in line
    ensures '\n' !in ReplaceFirst(line, "- [ ] ", "- ")
  {
    if line != "" && !HasPrefix(line, "- [ ] ") {
      ReplaceHasNoNewline(line[1..]);
    }
  }

  lemma TrimmedFacts(raw: string)
    requires '\n' !in raw
    ensures var line := TrimRight(raw, IsBlankChar);
            && '\n' !in line && '\n' !in TrimSpace(line)
            && (HasPrefix(TrimSpace(line), "```") <==> IsFence(line))
            && (IsFence(line) ==> IsFence(TrimSpace(line)))
  {
    TrimRightCuts(raw, IsBlankChar);
    TrimHasNoNewline(TrimRight(raw, IsBlankChar));
    TrimIdempotent(TrimRight(raw, IsBlankChar), IsSpace);
  }

  lemma PlanStepOk(p: Plan, raw: string, unsafe: string -> bool)
    requires PlanOk(p, unsafe) && '\n' !in raw
    ensures PlanOk(PlanStep(p, raw, unsafe), unsafe)
  {
    TrimmedFacts(raw);
    var line := TrimRight(raw, IsBlankChar);
    var trimmed := TrimSpace(line);
    if HasPrefix(trimmed, "```") {
      if AcceptsPlanLine(trimmed, unsafe) {
        FenceOk(p, trimmed, unsafe);
      }
    } else if p.inFence {
      OfferOk(p, line, unsafe);
    } else if trimmed == "" {
      if p.kept != [] && !p.blank {
        BlankOk(p, unsafe);
      }
    } else {
      TickedOk(p, line, unsafe);
    }
  }

  lemma TickedOk(p: Plan, line: string, unsafe: string -> bool)
    requires PlanOk(p, unsafe) && '\n' !in line && !IsFence(line)
    ensures PlanOk(Offer(p, ReplaceFirst(line, "- [ ] ", "- "), unsafe), unsafe)
  {
    FenceExactly(line);
    NoFenceByTicking(line);
    FenceExactly(ReplaceFirst(line, "- [ ] ", "- "));
    ReplaceHasNoNewline(line);
    OfferOk(p, ReplaceFirst(line, "- [ ] ", "- "), unsafe);
  }

  lemma {:induction false} PlanAlwaysOk(lines: seq<string>, unsafe: string -> bool)
    requires SingleLines(lines)
    ensures PlanOk(PlanOf(lines, unsafe), unsafe)
  {
    if lines != [] {
      PlanAlwaysOk(lines[..|lines| - 1], unsafe);
      PlanStepOk(PlanOf(lines[..|lines| - 1], unsafe), lines[|lines| - 1], unsafe);
    }
  }

  // ---------------------------------------------------------------- without blank ends

  lemma NothingAtStart(lines: seq<string>)
    requires lines != [] ==> !Blank(lines[0])
    ensures DropBlankStart(lines) == lines
  {
  }

  /** Accepted lines are blank only if they are empty. */
  lemma BlankIsEmpty(line: string, unsafe: string -> bool)
    requires TrimInvariant(unsafe) && !unsafe(FALLBACK) && Accepted(line, unsafe)
    ensures Blank(line) <==> line == ""
  {
    if line != "" {
      HarmlessShows(line, unsafe);
    }
  }

  /** A spaced list of accepted lines loses one empty line at the end, if it has one. */
  function WithoutEnd(lines: seq<string>): seq<string> {
    if EndsBlank(lines) then lines[..|lines| - 1] else lines
  }

  lemma WithoutEndOk(lines: seq<string>, unsafe: string -> bool)
    requires Spaced(lines) && AllAccepted(lines, unsafe)
    ensures Spaced(WithoutEnd(lines)) && AllAccepted(WithoutEnd(lines), unsafe) && !EndsBlank(WithoutEnd(lines))
    ensures FenceOpen(WithoutEnd(lines)) == FenceOpen(lines)
  {
    if EndsBlank(lines) {
      SpacedFront(lines);
      AcceptedFront(lines, unsafe);
      assert !IsFence("");
    }
  }

  lemma EndsShow(lines: seq<string>, unsafe: string -> bool)
    requires TrimInvariant(unsafe) && !unsafe(FALLBACK)
    requires Spaced(lines) && AllAccepted(lines, unsafe) && lines != []
    ensures !Blank(lines[0]) && (!EndsBlank(lines) ==> !Blank(lines[|lines| - 1]))
  {
    BlankIsEmpty(lines[0], unsafe);
    BlankIsEmpty(lines[|lines| - 1], unsafe);
  }

  lemma EndDropped(lines: seq<string>, unsafe: string -> bool)
    requires TrimInvariant(unsafe) && !unsafe(FALLBACK) && Spaced(lines) && AllAccepted(lines, unsafe)
    ensures DropBlankEnd(DropBlankStart(lines)) == WithoutEnd(lines)
  {
    if lines != [] {
      EndsShow(lines, unsafe);
      NothingAtStart(lines);
      var front := lines[..|lines| - 1];
      if EndsBlank(lines) {
        WithoutEndOk(lines, unsafe);
        SpacedFront(lines);
        EndsShow(front, unsafe);
        assert DropBlankEnd(front) == front;
      }
    }
  }

  /** A plan preview: harmless lines, no two blank lines in a row, none at either end; and a code block
      is left open just if the loop ended inside a fence. */
  lemma PlanPreview(body: string, unsafe: string -> bool)
    requires TrimInvariant(unsafe) && !unsafe(FALLBACK)
    ensures var p := PlanOf(FileLines(body), unsafe);
            var r := DropBlankEnd(DropBlankStart(p.kept));
            && AllAccepted(r, unsafe) && NoDoubleBlank(r)
            && (r != [] ==> !Blank(r[0]) && !Blank(r[|r| - 1]))
            && (p.inFence <==> Fences(r) % 2 == 1)
  {
    var p := PlanOf(FileLines(body), unsafe);
    PlanAlwaysOk(FileLines(body), unsafe);
    EndDropped(p.kept, unsafe);
    WithoutEndOk(p.kept, unsafe);
    FenceOpenIsOdd(WithoutEnd(p.kept));
    if WithoutEnd(p.kept) != [] {
      EndsShow(WithoutEnd(p.kept), unsafe);
    }
  }

  // ------------------------------------------------------- what is shown, and what is not

  /** A single line without white space at its ends is harmless exactly if it is not empty, holds no control
      character and matches no unsafe pattern; the fallback text always is. */
  lemma HarmlessExactly(line: string, unsafe: string -> bool)
    requires TrimInvariant(unsafe) && '\n' !in line && Tight(line, IsSpace)
    ensures Harmless(line, unsafe) <==> line == FALLBACK || (line != "" && Clean(line) && !unsafe(line))
  {
    FixedExactly(line, unsafe);
    SplitNone(line, '\n');
    OneGoodLine(line, unsafe);
  }

  lemma OneGoodLine(line: string, unsafe: string -> bool)
    requires '\n' !in line && Tight(line, IsSpace)
    ensures GoodLines([line], unsafe) && line != "" <==> line != "" && Clean(line) && !unsafe(line)
  {
    TrimTight(line, IsSpace);
    assert line + "" == line;
    TrimRightUnique(line, "", IsBlankChar);
    assert GoodLines([line], unsafe) ==> GoodLine([line][0], unsafe);
  }

  lemma TrimOfTrimmed(raw: string)
    ensures TrimSpace(TrimRight(raw, IsBlankChar)) == TrimSpace(raw)
  {
    var line := TrimRight(raw, IsBlankChar);
    var r := RightPart(raw, IsBlankChar);
    assert "" + line + r == raw;
    TrimPadded("", line, r, IsSpace);
  }

  /** The trimmed lines of a text that are harmless, in order. */
  function HarmlessLines(lines: seq<string>, unsafe: string -> bool): seq<string> {
    if lines == [] then []
    else
      var last := TrimSpace(lines[|lines| - 1]);
      HarmlessLines(lines[..|lines| - 1], unsafe) + if last != "" && Harmless(last, unsafe) then [last] else []
  }

  /** The preview of a JSON or YAML file is just that. */
  lemma {:induction false} GenericExactly(lines: seq<string>, unsafe: string -> bool)
    ensures GenericLines(lines, unsafe) == HarmlessLines(lines, unsafe)
  {
    if lines != [] {
      GenericExactly(lines[..|lines| - 1], unsafe);
      var last := TrimSpace(lines[|lines| - 1]);
      var _, _ := TrimParts(lines[|lines| - 1], IsSpace);
      assert last + "" == last;
      TrimRightUnique(last, "", IsBlankChar);
      assert HarmlessLines(lines[..|lines| - 1], unsafe) + [] == HarmlessLines(lines[..|lines| - 1], unsafe);
    }
  }

  /** A fence line that is shown opens or closes a code block. */
  predicate TurnsFence(raw: string, unsafe: string -> bool) {
    HasPrefix(TrimSpace(raw), "```") && Harmless(TrimSpace(raw), unsafe)
  }

  function Turns(lines: seq<string>, unsafe: string -> bool): nat {
    if lines == [] then 0
    else Turns(lines[..|lines| - 1], unsafe) + if TurnsFence(lines[|lines| - 1], unsafe) then 1 else 0
  }

  /** An odd number of them: the line behind these is inside a code block. */
  predicate InBlock(lines: seq<string>, unsafe: string -> bool) {
    lines != [] && InBlock(lines[..|lines| - 1], unsafe) != TurnsFence(lines[|lines| - 1], unsafe)
  }

  lemma OddMore(before: nat, after: nat, turned: bool)
    requires after == before + if turned then 1 else 0
    ensures after % 2 == 1 <==> ((before % 2 == 1) != turned)
  {
  }

  lemma {:induction false} InBlockIsOdd(lines: seq<string>, unsafe: string -> bool)
    ensures InBlock(lines, unsafe) <==> Turns(lines, unsafe) % 2 == 1
  {
    if lines != [] {
      var front := lines[..|lines| - 1];
      InBlockIsOdd(front, unsafe);
      OddMore(Turns(front, unsafe), Turns(lines, unsafe), TurnsFence(lines[|lines| - 1], unsafe));
    }
  }

  /** The list item is ticked off. */
  function Ticked(raw: string): string {
    ReplaceFirst(TrimRight(raw, IsBlankChar), "- [ ] ", "- ")
  }

  /** What a plan shows of one of its lines, outside or inside a code block. */
  function Shows(raw: string, open: bool, unsafe: string -> bool): Option<string> {
    var t := TrimSpace(raw);
    if HasPrefix(t, "```") then (if Harmless(t, unsafe) then Some(t) else None)
    else if open then (if t != "" && Harmless(t, unsafe) then Some(TrimRight(raw, IsBlankChar)) else None)
    else if t == "" || t[0] == '>' || Contains(t, "For agentic workers") then None
    else if Harmless(TrimSpace(Ticked(raw)), unsafe) then Some(Ticked(raw))
    else None
  }

  /** The lines shown, and an empty one for each blank line outside the code blocks. */
  function Offered(lines: seq<string>, unsafe: string -> bool): seq<string> {
    if lines == [] then []
    else
      var front, last := lines[..|lines| - 1], lines[|lines| - 1];
      Offered(front, unsafe) + OfferedOne(last, InBlock(front, unsafe), unsafe)
  }

  function OfferedOne(raw: string, open: bool, unsafe: string -> bool): seq<string> {
    match Shows(raw, open, unsafe)
    case Some(line) => [line]
    case None => if TrimSpace(raw) == "" && !open then [""] else []
  }

  lemma AcceptsExactly(line: string, unsafe: string -> bool)
    ensures AcceptsPlanLine(line, unsafe) <==> Harmless(TrimSpace(line), unsafe)
  {
    assert TrimSpace("") == "" && !Harmless("", unsafe);
  }

  /** What was kept of the lines offered so far, and whether it ends with an empty line. */
  ghost predicate KeptOf(p: Plan, offered: seq<string>) {
    p.kept == Squeeze(offered) && (p.blank <==> EndsBlank(p.kept))
  }

  lemma NothingOffered(offered: seq<string>)
    ensures offered + [] == offered
  {
  }

  lemma OfferTells(p: Plan, offered: seq<string>, line: string, unsafe: string -> bool)
    requires KeptOf(p, offered)
    ensures var q := Offer(p, line, unsafe);
            && KeptOf(q, offered + if Harmless(TrimSpace(line), unsafe) then [line] else [])
            && q.inFence == p.inFence
  {
    AcceptsExactly(line, unsafe);
    SqueezeOne(offered, line);
    NothingOffered(offered);
  }

  lemma FenceTells(p: Plan, offered: seq<string>, raw: string, unsafe: string -> bool)
    requires KeptOf(p, offered) && HasPrefix(TrimSpace(raw), "```")
    ensures var q := PlanStep(p, raw, unsafe);
            && KeptOf(q, offered + OfferedOne(raw, p.inFence, unsafe))
            && (q.inFence <==> (p.inFence != TurnsFence(raw, unsafe)))
  {
    TrimOfTrimmed(raw);
    TrimIdempotent(raw, IsSpace);
    AcceptsExactly(TrimSpace(raw), unsafe);
    OfferTells(p, offered, TrimSpace(raw), unsafe);
  }

  lemma InsideTells(p: Plan, offered: seq<string>, raw: string, unsafe: string -> bool)
    requires KeptOf(p, offered) && !HasPrefix(TrimSpace(raw), "```") && p.inFence
    ensures var q := PlanStep(p, raw, unsafe);
            KeptOf(q, offered + OfferedOne(raw, true, unsafe)) && q.inFence
  {
    TrimOfTrimmed(raw);
    OfferTells(p, offered, TrimRight(raw, IsBlankChar), unsafe);
    assert !Harmless("", unsafe);
  }

  lemma OutsideTells(p: Plan, offered: seq<string>, raw: string, unsafe: string -> bool)
    requires KeptOf(p, offered) && !HasPrefix(TrimSpace(raw), "```") && !p.inFence
    ensures var q := PlanStep(p, raw, unsafe);
            KeptOf(q, offered + OfferedOne(raw, false, unsafe)) && !q.inFence
  {
    TrimOfTrimmed(raw);
    NothingOffered(offered);
    if TrimSpace(raw) == "" {
      SqueezeOne(offered, "");
    } else {
      OfferTells(p, offered, Ticked(raw), unsafe);
    }
  }

  lemma StepTells(p: Plan, offered: seq<string>, raw: string, open: bool, q: Plan, unsafe: string -> bool)
    requires KeptOf(p, offered) && p.inFence == open && q == PlanStep(p, raw, unsafe)
    ensures KeptOf(q, offered + OfferedOne(raw, open, unsafe))
    ensures q.inFence <==> (open != TurnsFence(raw, unsafe))
  {
    if HasPrefix(TrimSpace(raw), "```") {
      FenceTells(p, offered, raw, unsafe);
    } else if p.inFence {
      InsideTells(p, offered, raw, unsafe);
    } else {
      OutsideTells(p, offered, raw, unsafe);
    }
  }

  lemma {:induction false} PlanIsTold(lines: seq<string>, unsafe: string -> bool)
    ensures KeptOf(PlanOf(lines, unsafe), Offered(lines, unsafe))
    ensures PlanOf(lines, unsafe).inFence == InBlock(lines, unsafe)
  {
    if lines != [] {
      var front, last := lines[..|lines| - 1], lines[|lines| - 1];
      PlanIsTold(front, unsafe);
      StepTells(PlanOf(front, unsafe), Offered(front, unsafe), last, InBlock(front, unsafe), PlanOf(lines, unsafe),
                unsafe);
    }
  }

  /** What is kept is what is offered, without empty lines at the ends and with one at most between two lines. */
  lemma PlanExactly(body: string, unsafe: string -> bool)
    requires TrimInvariant(unsafe) && !unsafe(FALLBACK)
    ensures DropBlankEnd(DropBlankStart(PlanOf(FileLines(body), unsafe).kept))
         == WithoutEnd(Squeeze(Offered(FileLines(body), unsafe)))
  {
    var lines := FileLines(body);
    PlanIsTold(lines, unsafe);
    PlanAlwaysOk(lines, unsafe);
    EndDropped(PlanOf(lines, unsafe).kept, unsafe);
  }

  /** The lines that are not empty. */
  function Filled(lines: seq<string>): seq<string> {
    if lines == [] then []
    else Filled(lines[..|lines| - 1]) + if lines[|lines| - 1] == "" then [] else [lines[|lines| - 1]]
  }

  lemma {:induction false} FilledAppend(a: seq<string>, b: seq<string>)
    ensures Filled(a + b) == Filled(a) + Filled(b)
  {
    if b == [] {
      assert a + b == a;
    } else {
      assert (a + b)[..|a + b| - 1] == a + b[..|b| - 1];
      FilledAppend(a, b[..|b| - 1]);
    }
  }

  lemma {:induction false} FilledSqueeze(lines: seq<string>)
    ensures Filled(Squeeze(lines)) == Filled(lines)
  {
    if lines != [] {
      var front, last := lines[..|lines| - 1], lines[|lines| - 1];
      FilledSqueeze(front);
      FilledAppend(Squeeze(front), [last]);
      FilledOne(last);
    }
  }

  lemma FilledOne(line: string)
    ensures Filled([line]) == if line == "" then [] else [line]
  {
    assert [line][..0] == [];
  }

  /** The lines of a plan that are shown, each as it is shown. */
  function Shown(lines: seq<string>, unsafe: string -> bool): seq<string> {
    if lines == [] then []
    else
      var front := lines[..|lines| - 1];
      match Shows(lines[|lines| - 1], InBlock(front, unsafe), unsafe)
      case Some(line) => Shown(front, unsafe) + [line]
      case None => Shown(front, unsafe)
  }

  lemma ShowsSomething(raw: string, open: bool, unsafe: string -> bool)
    ensures Shows(raw, open, unsafe).Some? ==> Shows(raw, open, unsafe).value != ""
    ensures Filled(OfferedOne(raw, open, unsafe))
         == match Shows(raw, open, unsafe) { case Some(line) => [line] case None => [] }
  {
    FilledOne("");
    if Shows(raw, open, unsafe).Some? {
      ShownIsHarmless(raw, open, unsafe);
      AcceptsExactly(Shows(raw, open, unsafe).value, unsafe);
      FilledOne(Shows(raw, open, unsafe).value);
    }
  }

  lemma ShownIsHarmless(raw: string, open: bool, unsafe: string -> bool)
    requires Shows(raw, open, unsafe).Some?
    ensures Harmless(TrimSpace(Shows(raw, open, unsafe).value), unsafe)
  {
    TrimOfTrimmed(raw);
    TrimIdempotent(raw, IsSpace);
  }

  lemma {:induction false} OfferedIsShown(lines: seq<string>, unsafe: string -> bool)
    ensures Filled(Offered(lines, unsafe)) == Shown(lines, unsafe)
  {
    if lines != [] {
      var front, last := lines[..|lines| - 1], lines[|lines| - 1];
      OfferedIsShown(front, unsafe);
      FilledAppend(Offered(front, unsafe), OfferedOne(last, InBlock(front, unsafe), unsafe));
      ShowsSomething(last, InBlock(front, unsafe), unsafe);
    }
  }

  lemma FilledWithoutEnd(lines: seq<string>)
    ensures Filled(WithoutEnd(lines)) == Filled(lines)
  {
    if EndsBlank(lines) {
      LastSplit(lines);
      FilledAppend(lines[..|lines| - 1], [""]);
      FilledOne("");
    }
  }

  /** Nothing that is to be shown is lost, and nothing else is kept. */
  lemma PlanShows(body: string, unsafe: string -> bool)
    requires TrimInvariant(unsafe) && !unsafe(FALLBACK)
    ensures Filled(DropBlankEnd(DropBlankStart(PlanOf(FileLines(body), unsafe).kept))) == Shown(FileLines(body), unsafe)
  {
    PlanExactly(body, unsafe);
    FilledWithoutEnd(Squeeze(Offered(FileLines(body), unsafe)));
    FilledSqueeze(Offered(FileLines(body), unsafe));
    OfferedIsShown(FileLines(body), unsafe);
  }

  /** The lines that are neither blank nor quoted nor a note to agents, ticked off, as far as they are harmless. */
  function PlainLines(lines: seq<string>, unsafe: string -> bool): seq<string> {
    if lines == [] then []
    else
      var t, line := TrimSpace(lines[|lines| - 1]), Ticked(lines[|lines| - 1]);
      PlainLines(lines[..|lines| - 1], unsafe) +
      if t != "" && t[0] != '>' && !Contains(t, "For agentic workers") && Harmless(TrimSpace(line), unsafe) then [line]
      else []
  }

  ghost predicate NoFences(lines: seq<string>) {
    forall line | line in lines :: !HasPrefix(TrimSpace(line), "```")
  }

  lemma {:induction false} PlainIsShown(lines: seq<string>, unsafe: string -> bool)
    requires NoFences(lines)
    ensures Shown(lines, unsafe) == PlainLines(lines, unsafe) && !InBlock(lines, unsafe)
  {
    if lines != [] {
      var front, last := lines[..|lines| - 1], lines[|lines| - 1];
      assert forall line | line in front :: line in lines;
      PlainIsShown(front, unsafe);
      assert PlainLines(front, unsafe) + [] == PlainLines(front, unsafe);
      assert last in lines;
    }
  }

  /** A plan without code blocks shows just these lines, in order. */
  lemma PlainPlan(body: string, unsafe: string -> bool)
    requires TrimInvariant(unsafe) && !unsafe(FALLBACK) && NoFences(FileLines(body))
    ensures Filled(DropBlankEnd(DropBlankStart(PlanOf(FileLines(body), unsafe).kept)))
         == PlainLines(FileLines(body), unsafe)
  {
    PlanShows(body, unsafe);
    PlainIsShown(FileLines(body), unsafe);
  }
}
