/** internal/commands: the "/codex" lines of a comment. */
module Commands {
  import opened Text
  import opened Branches
  import Decimal

  datatype Name = Plan | Implement | Fix | Review | Retry | Cancel | Status

  datatype Flags = Flags(branch: string, base: string, dryRun: bool, minutes: int)

  datatype Command = Command(name: Name, flags: Flags, raw: string)

  datatype Options = Options(bases: seq<string>, cap: int, lower: LowerDigit)

  const NO_FLAGS := Flags("", "", false, 0)

  function NameText(n: Name): string {
    match n
    case Plan => "plan"
    case Implement => "implement"
    case Fix => "fix"
    case Review => "review"
    case Retry => "retry"
    case Cancel => "cancel"
    case Status => "status"
  }

  function NameOf(s: string): Option<Name> {
    if s == "plan" then Some(Plan)
    else if s == "implement" then Some(Implement)
    else if s == "fix" then Some(Fix)
    else if s == "review" then Some(Review)
    else if s == "retry" then Some(Retry)
    else if s == "cancel" then Some(Cancel)
    else if s == "status" then Some(Status)
    else None
  }

  /** strconv.Atoi on a 64-bit platform. */
  function Atoi(s: string): Option<int> {
    var digits := if s != "" && (s[0] == '+' || s[0] == '-') then s[1..] else s;
    if digits == "" || !Decimal.AllDigits(digits) then None
    else
      var n: int := Decimal.Value(digits);
      if s[0] == '-' then (if n <= Decimal.MAX_INT64 + 1 then Some(-n) else None)
      else if n <= Decimal.MAX_INT64 then Some(n) else None
  }

  predicate GoodMinutes(s: string, opts: Options) {
    Atoi(s).Some? && 30 <= Atoi(s).value <= opts.cap
  }

  /** The flags that the remaining words set, on top of those already set; None for an error. */
  function ParseFlags(words: seq<string>, flags: Flags, opts: Options): Option<Flags> {
    if words == [] then Some(flags)
    else if words[0] == "--dry-run" then ParseFlags(words[1..], flags.(dryRun := true), opts)
    else if |words| < 2 then None
    else if words[0] == "--branch" then
      if SafeBranch(words[1], opts.lower) then ParseFlags(words[2..], flags.(branch := words[1]), opts) else None
    else if words[0] == "--base" then
      if words[1] in opts.bases then ParseFlags(words[2..], flags.(base := words[1]), opts) else None
    else if words[0] == "--no-activity-minutes" then
      if GoodMinutes(words[1], opts) then ParseFlags(words[2..], flags.(minutes := Atoi(words[1]).value), opts)
      else None
    else None
  }

  function ParseWords(words: seq<string>, raw: string, opts: Options): Option<Command> {
    if |words| < 2 || words[0] != "/codex" || NameOf(words[1]).None? then None
    else
      match ParseFlags(words[2..], NO_FLAGS, opts)
      case Some(flags) => Some(Command(NameOf(words[1]).value, flags, raw))
      case None => None
  }

  function Parsed(line: string, opts: Options): Option<Command> {
    ParseWords(Fields(line), line, opts)
  }

  method ParseLine(line: string, opts: Options) returns (r: Option<Command>)
    ensures r == Parsed(line, opts)
  {
    var parts := Fields(line);
    if |parts| < 2 || parts[0] != "/codex" {
      return None;
    }
    var name := NameOf(parts[1]);
    if name.None? {
      return None;
    }
    var flags := NO_FLAGS;
    var i := 2;
    while i < |parts|
      invariant 2 <= i <= |parts|
      invariant ParseFlags(parts[2..], NO_FLAGS, opts) == ParseFlags(parts[i..], flags, opts)
    {
      var flag := parts[i];
      ghost var rest := parts[i..];
      assert rest[1..] == parts[i + 1..];
      if flag == "--dry-run" {
        flags := flags.(dryRun := true);
        i := i + 1;
        continue;
      }
      i := i + 1;
      if i >= |parts| {
        return None;
      }
      assert rest[1] == parts[i] && rest[2..] == parts[i + 1..];
      if flag == "--branch" {
        if !SafeBranch(parts[i], opts.lower) {
          return None;
        }
        flags := flags.(branch := parts[i]);
      } else if flag == "--base" {
        if parts[i] !in opts.bases {
          return None;
        }
        flags := flags.(base := parts[i]);
      } else if flag == "--no-activity-minutes" {
        if !GoodMinutes(parts[i], opts) {
          return None;
        }
        flags := flags.(minutes := Atoi(parts[i]).value);
      } else {
        return None;
      }
      i := i + 1;
    }
    assert parts[i..] == [];
    return Some(Command(name.value, flags, line));
  }

  predicate IsCommand(line: string) {
    HasPrefix(TrimSpace(line), "/codex ")
  }

  /** One more line: other text is passed over. */
  function AddLine(before: Option<seq<Command>>, line: string, opts: Options): Option<seq<Command>> {
    if before.None? then None
    else if !IsCommand(line) then before
    else
      match Parsed(TrimSpace(line), opts)
      case Some(cmd) => Some(before.value + [cmd])
      case None => None
  }

  /** The commands of some lines; None if one of them is wrong. */
  function ParsedLines(lines: seq<string>, opts: Options): Option<seq<Command>> {
    if lines == [] then Some([]) else AddLine(ParsedLines(lines[..|lines| - 1], opts), lines[|lines| - 1], opts)
  }

  function ParsedBody(body: string, opts: Options): Option<seq<Command>> {
    ParsedLines(Split(body, '\n'), opts)
  }

  lemma {:induction false} StaysWrong(a: seq<string>, b: seq<string>, opts: Options)
    requires ParsedLines(a, opts).None?
    ensures ParsedLines(a + b, opts).None?
  {
    if b == [] {
      assert a + b == a;
    } else {
      assert (a + b)[..|a + b| - 1] == a + b[..|b| - 1];
      StaysWrong(a, b[..|b| - 1], opts);
    }
  }

  lemma OneMoreLine(lines: seq<string>, i: nat, opts: Options)
    requires i < |lines|
    ensures ParsedLines(lines[..i + 1], opts) == AddLine(ParsedLines(lines[..i], opts), lines[i], opts)
    ensures ParsedLines(lines[..i + 1], opts).None? ==> ParsedLines(lines, opts).None?
  {
    assert lines[..i + 1][..i] == lines[..i];
    if ParsedLines(lines[..i + 1], opts).None? {
      StaysWrong(lines[..i + 1], lines[i + 1..], opts);
      assert lines[..i + 1] + lines[i + 1..] == lines;
    }
  }

  method ParseBody(body: string, opts: Options) returns (r: Option<seq<Command>>)
    ensures r == ParsedBody(body, opts)
  {
    var lines := Split(body, '\n');
    var out: seq<Command> := [];
    for i := 0 to |lines|
      invariant ParsedLines(lines[..i], opts) == Some(out)
    {
      OneMoreLine(lines, i, opts);
      var trimmed := TrimSpace(lines[i]);
      if !HasPrefix(trimmed, "/codex ") {
        continue;
      }
      var cmd := ParseLine(trimmed, opts);
      if cmd.None? {
        return None;
      }
      out := out + [cmd.value];
    }
    assert lines[..|lines|] == lines;
    return Some(out);
  }

  // ------------------------------------------------------------ what is accepted

  /** A flag as it is written. */
  datatype Token = DryRun | OfBranch(branch: string) | OfBase(base: string) | OfMinutes(minutes: string)

  function Spell(t: Token): seq<string> {
    match t
    case DryRun => ["--dry-run"]
    case OfBranch(branch) => ["--branch", branch]
    case OfBase(base) => ["--base", base]
    case OfMinutes(minutes) => ["--no-activity-minutes", minutes]
  }

  predicate Allowed(t: Token, opts: Options) {
    match t
    case DryRun => true
    case OfBranch(branch) => SafeBranch(branch, opts.lower)
    case OfBase(base) => base in opts.bases
    case OfMinutes(minutes) => Atoi(minutes).Some? && 30 <= Atoi(minutes).value <= opts.cap
  }

  function Apply(f: Flags, t: Token): Flags {
    match t
    case DryRun => f.(dryRun := true)
    case OfBranch(branch) => f.(branch := branch)
    case OfBase(base) => f.(base := base)
    case OfMinutes(minutes) => f.(minutes := if Atoi(minutes).Some? then Atoi(minutes).value else f.minutes)
  }

  function SpellAll(tokens: seq<Token>): seq<string> {
    if tokens == [] then [] else Spell(tokens[0]) + SpellAll(tokens[1..])
  }

  ghost predicate AllAllowed(tokens: seq<Token>, opts: Options) {
    forall i | 0 <= i < |tokens| :: Allowed(tokens[i], opts)
  }

  /** A later flag overrides an earlier one. */
  function ApplyAll(f: Flags, tokens: seq<Token>): Flags
    decreases tokens
  {
    if tokens == [] then f else ApplyAll(Apply(f, tokens[0]), tokens[1..])
  }

  lemma TokenParses(f: Flags, t: Token, rest: seq<string>, opts: Options)
    requires Allowed(t, opts)
    ensures ParseFlags(Spell(t) + rest, f, opts) == ParseFlags(rest, Apply(f, t), opts)
  {
    var words := Spell(t) + rest;
    assert words[|Spell(t)|..] == rest;
  }

  lemma {:induction false} TokensParse(f: Flags, tokens: seq<Token>, rest: seq<string>, opts: Options)
    requires AllAllowed(tokens, opts)
    ensures ParseFlags(SpellAll(tokens) + rest, f, opts) == ParseFlags(rest, ApplyAll(f, tokens), opts)
    decreases tokens
  {
    if tokens == [] {
      assert SpellAll(tokens) + rest == rest;
    } else {
      assert Allowed(tokens[0], opts);
      assert SpellAll(tokens) + rest == Spell(tokens[0]) + (SpellAll(tokens[1..]) + rest);
      TokenParses(f, tokens[0], SpellAll(tokens[1..]) + rest, opts);
      TokensParse(Apply(f, tokens[0]), tokens[1..], rest, opts);
    }
  }

  /** The token that accepted words begin with. */
  lemma FirstToken(words: seq<string>, f: Flags, opts: Options) returns (t: Token, rest: seq<string>)
    requires words != [] && ParseFlags(words, f, opts).Some?
    ensures Allowed(t, opts) && words == Spell(t) + rest
    ensures ParseFlags(rest, Apply(f, t), opts) == ParseFlags(words, f, opts)
  {
    if words[0] == "--dry-run" {
      t, rest := DryRun, words[1..];
    } else {
      rest := words[2..];
      t := if words[0] == "--branch" then OfBranch(words[1])
           else if words[0] == "--base" then OfBase(words[1]) else OfMinutes(words[1]);
    }
    assert words == Spell(t) + rest;
  }

  lemma {:induction false} ParsedTokens(words: seq<string>, f: Flags, opts: Options) returns (tokens: seq<Token>)
    requires ParseFlags(words, f, opts).Some?
    ensures AllAllowed(tokens, opts) && words == SpellAll(tokens)
    ensures ParseFlags(words, f, opts) == Some(ApplyAll(f, tokens))
    decreases |words|
  {
    tokens := [];
    if words != [] {
      var t, rest := FirstToken(words, f, opts);
      var more := ParsedTokens(rest, Apply(f, t), opts);
      tokens := [t] + more;
      assert tokens[0] == t && tokens[1..] == more;
    }
  }

  /** The words of a line are these: the command, its name, and allowed flags. */
  ghost predicate Accepts(words: seq<string>, name: Name, tokens: seq<Token>, opts: Options) {
    words == ["/codex", NameText(name)] + SpellAll(tokens) && AllAllowed(tokens, opts)
  }

  lemma NameIsText(s: string)
    requires NameOf(s).Some?
    ensures NameText(NameOf(s).value) == s
  {
  }

  lemma TextIsName(name: Name)
    ensures NameOf(NameText(name)) == Some(name)
  {
  }

  /** A line is accepted exactly if its words are the command, one of the seven names, and allowed flags; and it
      then means that name, with the flags set in order. */
  lemma AcceptedExactly(line: string, cmd: Command, opts: Options)
    ensures Parsed(line, opts) == Some(cmd)
       <==> cmd.raw == line
            && exists tokens :: Accepts(Fields(line), cmd.name, tokens, opts)
                                && cmd.flags == ApplyAll(NO_FLAGS, tokens)
  {
    var words := Fields(line);
    if Parsed(line, opts) == Some(cmd) {
      var tokens := ParsedTokens(words[2..], NO_FLAGS, opts);
      NameIsText(words[1]);
      assert words == ["/codex", NameText(cmd.name)] + SpellAll(tokens);
    }
    if tokens :| Accepts(words, cmd.name, tokens, opts) && cmd.flags == ApplyAll(NO_FLAGS, tokens) {
      TextIsName(cmd.name);
      assert words[2..] == SpellAll(tokens) == SpellAll(tokens) + [];
      TokensParse(NO_FLAGS, tokens, [], opts);
    }
  }

  /** The words begin with no flag, or with one that lacks its value, or whose value is not allowed. */
  predicate Wrong(words: seq<string>, opts: Options) {
    && words != [] && words[0] != "--dry-run"
    && (|| |words| == 1
        || (words[0] != "--branch" && words[0] != "--base" && words[0] != "--no-activity-minutes")
        || (words[0] == "--branch" && !SafeBranch(words[1], opts.lower))
        || (words[0] == "--base" && words[1] !in opts.bases)
        || (words[0] == "--no-activity-minutes"
            && (Atoi(words[1]).None? || Atoi(words[1]).value < 30 || Atoi(words[1]).value > opts.cap)))
  }

  /** Whatever good flags come before it, the first thing that is wrong refuses the line. */
  lemma WrongIsRefused(line: string, name: Name, tokens: seq<Token>, rest: seq<string>, opts: Options)
    requires AllAllowed(tokens, opts) && Wrong(rest, opts)
    requires Fields(line) == ["/codex", NameText(name)] + (SpellAll(tokens) + rest)
    ensures Parsed(line, opts).None?
  {
    WordsBehind(Fields(line), name, SpellAll(tokens) + rest);
    TokensParse(NO_FLAGS, tokens, rest, opts);
    WrongStops(rest, ApplyAll(NO_FLAGS, tokens), opts);
  }

  lemma WordsBehind(words: seq<string>, name: Name, more: seq<string>)
    requires words == ["/codex", NameText(name)] + more
    ensures |words| >= 2 && words[2..] == more && words[1] == NameText(name)
  {
  }

  lemma WrongStops(rest: seq<string>, f: Flags, opts: Options)
    requires Wrong(rest, opts)
    ensures ParseFlags(rest, f, opts).None?
  {
  }

  /** So is a line with another name, or with none. */
  lemma NoNameIsRefused(line: string, opts: Options)
    requires |Fields(line)| < 2 || Fields(line)[0] != "/codex"
             || Fields(line)[1] !in ["plan", "implement", "fix", "review", "retry", "cancel", "status"]
    ensures Parsed(line, opts).None?
  {
  }

  predicate Begins(line: string) {
    "/codex " <= TrimSpace(line)
  }

  /** The lines whose text begins with the command and a blank. */
  ghost predicate CommandsAt(lines: seq<string>, at: seq<nat>) {
    Ascends(at, |lines|) && forall i | 0 <= i < |lines| :: i in at <==> Begins(lines[i])
  }

  function Places(lines: seq<string>): seq<nat> {
    if lines == [] then []
    else Places(lines[..|lines| - 1]) + if Begins(lines[|lines| - 1]) then [|lines| - 1] else []
  }

  lemma {:induction false} PlacesAscend(lines: seq<string>)
    ensures CommandsAt(lines, Places(lines))
  {
    if lines != [] {
      var front := lines[..|lines| - 1];
      PlacesAscend(front);
      AscendsMore(Places(front), |front|);
    }
  }

  predicate ReadsAs(line: string, cmd: Command, opts: Options) {
    Parsed(TrimSpace(line), opts) == Some(cmd)
  }

  ghost predicate AllParse(lines: seq<string>, at: seq<nat>, cmds: seq<Command>, opts: Options)
    requires Ascends(at, |lines|)
  {
    |cmds| == |at| && forall k | 0 <= k < |at| :: ReadsAs(lines[at[k]], cmds[k], opts)
  }

  lemma ParseAllButLast(lines: seq<string>, before: seq<nat>, cmds: seq<Command>, opts: Options)
    requires lines != [] && Ascends(before, |lines| - 1) && Ascends(before + [|lines| - 1], |lines|)
    requires AllParse(lines, before + [|lines| - 1], cmds, opts)
    ensures cmds != [] && AllParse(lines[..|lines| - 1], before, cmds[..|cmds| - 1], opts)
    ensures ReadsAs(lines[|lines| - 1], cmds[|cmds| - 1], opts)
  {
    var at := before + [|lines| - 1];
    forall k | 0 <= k < |before|
      ensures ReadsAs(lines[..|lines| - 1][before[k]], cmds[..|cmds| - 1][k], opts)
    {
      assert at[k] == before[k] && ReadsAs(lines[at[k]], cmds[k], opts);
    }
    assert at[|before|] == |lines| - 1 && ReadsAs(lines[at[|before|]], cmds[|before|], opts);
  }

  lemma ParseOneMore(lines: seq<string>, before: seq<nat>, cmds: seq<Command>, opts: Options)
    requires lines != [] && Ascends(before, |lines| - 1) && Ascends(before + [|lines| - 1], |lines|)
    requires cmds != [] && AllParse(lines[..|lines| - 1], before, cmds[..|cmds| - 1], opts)
    requires ReadsAs(lines[|lines| - 1], cmds[|cmds| - 1], opts)
    ensures AllParse(lines, before + [|lines| - 1], cmds, opts)
  {
    var at := before + [|lines| - 1];
    forall k | 0 <= k < |at|
      ensures ReadsAs(lines[at[k]], cmds[k], opts)
    {
      if k < |before| {
        assert ReadsAs(lines[..|lines| - 1][before[k]], cmds[..|cmds| - 1][k], opts);
      }
    }
  }

  lemma FrontParses(lines: seq<string>, before: seq<nat>, cmds: seq<Command>, opts: Options)
    requires lines != [] && Ascends(before, |lines| - 1) && Ascends(before, |lines|)
    ensures AllParse(lines, before, cmds, opts) <==> AllParse(lines[..|lines| - 1], before, cmds, opts)
  {
    assert forall k | 0 <= k < |before| :: lines[before[k]] == lines[..|lines| - 1][before[k]];
  }

  lemma {:induction false} LinesExactly(lines: seq<string>, cmds: seq<Command>, opts: Options)
    requires CommandsAt(lines, Places(lines))
    ensures ParsedLines(lines, opts) == Some(cmds) <==> AllParse(lines, Places(lines), cmds, opts)
  {
    if lines != [] {
      var front, line := lines[..|lines| - 1], lines[|lines| - 1];
      PlacesAscend(front);
      if Begins(line) {
        if cmds != [] {
          LinesExactly(front, cmds[..|cmds| - 1], opts);
          LastAdded(ParsedLines(front, opts), line, cmds, opts);
        }
        if AllParse(lines, Places(lines), cmds, opts) {
          ParseAllButLast(lines, Places(front), cmds, opts);
        } else if ParsedLines(lines, opts) == Some(cmds) {
          ParseOneMore(lines, Places(front), cmds, opts);
        }
      } else {
        FrontParses(lines, Places(front), cmds, opts);
        LinesExactly(front, cmds, opts);
      }
    }
  }

  lemma LastAdded(before: Option<seq<Command>>, line: string, cmds: seq<Command>, opts: Options)
    requires Begins(line) && cmds != []
    ensures AddLine(before, line, opts) == Some(cmds)
       <==> before == Some(cmds[..|cmds| - 1]) && Parsed(TrimSpace(line), opts) == Some(cmds[|cmds| - 1])
  {
    if before.Some? && Parsed(TrimSpace(line), opts).Some? {
      var all := before.value + [Parsed(TrimSpace(line), opts).value];
      assert all[..|all| - 1] == before.value;
    }
    LastSplit(cmds);
  }

  /** A text is accepted exactly if every line of it that begins with the command is, and it then gives their
      commands in order. */
  lemma BodyExactly(body: string, cmds: seq<Command>, opts: Options) returns (at: seq<nat>)
    ensures CommandsAt(Split(body, '\n'), at)
    ensures ParsedBody(body, opts) == Some(cmds) <==> AllParse(Split(body, '\n'), at, cmds, opts)
  {
    at := Places(Split(body, '\n'));
    PlacesAscend(Split(body, '\n'));
    LinesExactly(Split(body, '\n'), cmds, opts);
  }

  // ----------------------------------------------------- printing, and parsing it back

  /** The flags that a parser with these options may return. */
  ghost predicate ValidFlags(f: Flags, opts: Options) {
    && (f.branch == "" || SafeBranch(f.branch, opts.lower))
    && (f.base == "" || (f.base in opts.bases && IsWord(f.base)))
    && (f.minutes == 0 || 30 <= f.minutes <= opts.cap)
    && f.minutes <= Decimal.MAX_INT64
  }

  function BranchWords(f: Flags): seq<string> {
    if f.branch == "" then [] else ["--branch", f.branch]
  }

  function BaseWords(f: Flags): seq<string> {
    if f.base == "" then [] else ["--base", f.base]
  }

  function MinutesWords(f: Flags): seq<string> {
    if f.minutes <= 0 then [] else ["--no-activity-minutes", Decimal.Numeral(f.minutes)]
  }

  function DryRunWords(f: Flags): seq<string> {
    if f.dryRun then ["--dry-run"] else []
  }

  function FlagWords(f: Flags): seq<string> {
    BranchWords(f) + (BaseWords(f) + (MinutesWords(f) + DryRunWords(f)))
  }

  function Words(name: Name, f: Flags): seq<string> {
    ["/codex", NameText(name)] + FlagWords(f)
  }

  /** The canonical line of a command. */
  function Line(name: Name, f: Flags): string {
    Join(Words(name, f), " ")
  }

  lemma AtoiOfNumeral(n: int)
    requires 0 <= n <= Decimal.MAX_INT64
    ensures Atoi(Decimal.Numeral(n)) == Some(n)
  {
    Decimal.ValueOfNumeral(n);
  }

  lemma BranchParses(f: Flags, rest: seq<string>, g: Flags, opts: Options)
    requires ValidFlags(f, opts)
    ensures ParseFlags(BranchWords(f) + rest, g, opts)
         == ParseFlags(rest, if f.branch == "" then g else g.(branch := f.branch), opts)
  {
    var words := BranchWords(f) + rest;
    if f.branch == "" {
      assert words == rest;
    } else {
      assert words[2..] == rest && words[0] == "--branch" && words[1] == f.branch;
    }
  }

  lemma BaseParses(f: Flags, rest: seq<string>, g: Flags, opts: Options)
    requires ValidFlags(f, opts)
    ensures ParseFlags(BaseWords(f) + rest, g, opts)
         == ParseFlags(rest, if f.base == "" then g else g.(base := f.base), opts)
  {
    var words := BaseWords(f) + rest;
    if f.base == "" {
      assert words == rest;
    } else {
      assert words[2..] == rest && words[0] == "--base" && words[1] == f.base;
    }
  }

  lemma MinutesParse(f: Flags, rest: seq<string>, g: Flags, opts: Options)
    requires ValidFlags(f, opts)
    ensures ParseFlags(MinutesWords(f) + rest, g, opts)
         == ParseFlags(rest, if f.minutes == 0 then g else g.(minutes := f.minutes), opts)
  {
    var words := MinutesWords(f) + rest;
    if f.minutes == 0 {
      assert words == rest;
    } else {
      AtoiOfNumeral(f.minutes);
      assert words[2..] == rest && words[0] == "--no-activity-minutes" && words[1] == Decimal.Numeral(f.minutes);
    }
  }

  lemma FlagsParse(f: Flags, opts: Options)
    requires ValidFlags(f, opts)
    ensures ParseFlags(FlagWords(f), NO_FLAGS, opts) == Some(f)
  {
    BranchParses(f, BaseWords(f) + (MinutesWords(f) + DryRunWords(f)), NO_FLAGS, opts);
    var g := NO_FLAGS.(branch := f.branch);
    BaseParses(f, MinutesWords(f) + DryRunWords(f), g, opts);
    MinutesParse(f, DryRunWords(f), g.(base := f.base), opts);
    DryRunParses(f, g.(base := f.base, minutes := f.minutes), opts);
  }

  lemma DryRunParses(f: Flags, g: Flags, opts: Options)
    ensures ParseFlags(DryRunWords(f), g, opts) == Some(if f.dryRun then g.(dryRun := true) else g)
  {
  }

  lemma NameRoundTrip(name: Name)
    ensures NameOf(NameText(name)) == Some(name) && IsWord(NameText(name))
  {
  }

  lemma NumeralIsWord(n: nat)
    ensures IsWord(Decimal.Numeral(n))
  {
  }

  lemma WordsAppend(a: seq<string>, b: seq<string>)
    requires AllWords(a) && AllWords(b)
    ensures AllWords(a + b)
  {
  }

  lemma BranchWordsAreWords(f: Flags, opts: Options)
    requires ValidFlags(f, opts) && Branches.Tables(opts.lower)
    ensures AllWords(BranchWords(f))
  {
    if f.branch != "" {
      SafeBranchIsWord(f.branch, opts.lower);
    }
  }

  lemma MinutesWordsAreWords(f: Flags)
    ensures AllWords(MinutesWords(f))
  {
    if f.minutes > 0 {
      NumeralIsWord(f.minutes);
    }
  }

  lemma FlagWordsAreWords(f: Flags, opts: Options)
    requires ValidFlags(f, opts) && Branches.Tables(opts.lower)
    ensures AllWords(FlagWords(f))
  {
    BranchWordsAreWords(f, opts);
    MinutesWordsAreWords(f);
    WordsAppend(MinutesWords(f), DryRunWords(f));
    WordsAppend(BaseWords(f), MinutesWords(f) + DryRunWords(f));
    WordsAppend(BranchWords(f), BaseWords(f) + (MinutesWords(f) + DryRunWords(f)));
  }

  lemma WordsAreWords(name: Name, f: Flags, opts: Options)
    requires ValidFlags(f, opts) && Branches.Tables(opts.lower)
    ensures AllWords(Words(name, f))
  {
    NameRoundTrip(name);
    FlagWordsAreWords(f, opts);
    assert AllWords(["/codex", NameText(name)]);
  }

  /** Words joined by blanks: one line, with nothing to trim. */
  lemma {:induction false} JoinedWords(words: seq<string>)
    requires AllWords(words) && words != []
    ensures var s := Join(words, " ");
            '\n' !in s && s != "" && s[0] == words[0][0] && !IsSpace(s[|s| - 1])
  {
    if |words| > 1 {
      JoinedWords(words[1..]);
    }
  }

  lemma LineIsCommand(name: Name, f: Flags, opts: Options)
    requires ValidFlags(f, opts) && Branches.Tables(opts.lower)
    ensures var line := Line(name, f);
            '\n' !in line && TrimSpace(line) == line && IsCommand(line)
  {
    var words := Words(name, f);
    WordsAreWords(name, f, opts);
    JoinedWords(words);
    TrimTight(Line(name, f), IsSpace);
    CommandPrefix(words);
  }

  lemma CommandPrefix(words: seq<string>)
    requires |words| >= 2 && words[0] == "/codex"
    ensures HasPrefix(Join(words, " "), "/codex ")
  {
    assert Join(words, " ") == "/codex " + Join(words[1..], " ");
  }

  lemma WordsParse(name: Name, f: Flags, raw: string, opts: Options)
    requires ValidFlags(f, opts)
    ensures ParseWords(Words(name, f), raw, opts) == Some(Command(name, f, raw))
  {
    var words := Words(name, f);
    NameRoundTrip(name);
    FlagsParse(f, opts);
    assert words[2..] == FlagWords(f) && words[1] == NameText(name) && words[0] == "/codex";
  }

  /** Parsing undoes printing: the canonical line of a command is read as that command. */
  lemma PrintedParses(name: Name, f: Flags, opts: Options)
    requires ValidFlags(f, opts) && Branches.Tables(opts.lower)
    ensures ParsedBody(Line(name, f), opts) == Some([Command(name, f, Line(name, f))])
  {
    var line := Line(name, f);
    LineIsCommand(name, f, opts);
    SplitNone(line, '\n');
    WordsAreWords(name, f, opts);
    FieldsJoin(Words(name, f));
    WordsParse(name, f, line, opts);
    OneLine(line, Command(name, f, line), opts);
  }

  lemma OneLine(line: string, cmd: Command, opts: Options)
    requires TrimSpace(line) == line && IsCommand(line) && Parsed(line, opts) == Some(cmd)
    ensures ParsedLines([line], opts) == Some([cmd])
  {
    assert [line][..0] == [];
    assert [] + [cmd] == [cmd];
  }

  lemma {:induction false} FlagsValid(words: seq<string>, flags: Flags, opts: Options)
    requires AllWords(words) && ValidFlags(flags, opts) && ParseFlags(words, flags, opts).Some?
    ensures ValidFlags(ParseFlags(words, flags, opts).value, opts)
    decreases |words|
  {
    if words != [] {
      if words[0] == "--dry-run" {
        FlagsValid(words[1..], flags.(dryRun := true), opts);
      } else if words[0] == "--branch" {
        FlagsValid(words[2..], flags.(branch := words[1]), opts);
      } else if words[0] == "--base" {
        FlagsValid(words[2..], flags.(base := words[1]), opts);
      } else {
        FlagsValid(words[2..], flags.(minutes := Atoi(words[1]).value), opts);
      }
    }
  }

  /** Whatever is accepted keeps within the options, and its canonical line is accepted as the same
      command: printing is a normal form. */
  lemma ParsedIsPrintable(line: string, opts: Options)
    requires Branches.Tables(opts.lower) && Parsed(line, opts).Some?
    ensures var cmd := Parsed(line, opts).value;
            && ValidFlags(cmd.flags, opts)
            && ParsedBody(Line(cmd.name, cmd.flags), opts) == Some([cmd.(raw := Line(cmd.name, cmd.flags))])
  {
    var words := Fields(line);
    FieldsAreWords(line);
    FlagsValid(words[2..], NO_FLAGS, opts);
    var cmd := Parsed(line, opts).value;
    PrintedParses(cmd.name, cmd.flags, opts);
  }

  // ------------------------------------------------------------- texts and options

  function Both(a: Option<seq<Command>>, b: Option<seq<Command>>): Option<seq<Command>> {
    if a.None? || b.None? then None else Some(a.value + b.value)
  }

  lemma {:induction false} LinesAppend(a: seq<string>, b: seq<string>, opts: Options)
    ensures ParsedLines(a + b, opts) == Both(ParsedLines(a, opts), ParsedLines(b, opts))
  {
    if b == [] {
      assert a + b == a;
      assert ParsedLines(a, opts).Some? ==> ParsedLines(a, opts).value + [] == ParsedLines(a, opts).value;
    } else {
      assert (a + b)[..|a + b| - 1] == a + b[..|b| - 1];
      LinesAppend(a, b[..|b| - 1], opts);
      AddLineToBoth(ParsedLines(a, opts), ParsedLines(b[..|b| - 1], opts), b[|b| - 1], opts);
    }
  }

  lemma AddLineToBoth(a: Option<seq<Command>>, b: Option<seq<Command>>, line: string, opts: Options)
    ensures AddLine(Both(a, b), line, opts) == Both(a, AddLine(b, line, opts))
  {
    if a.Some? && b.Some? && IsCommand(line) && Parsed(TrimSpace(line), opts).Some? {
      var cmd := Parsed(TrimSpace(line), opts).value;
      assert (a.value + b.value) + [cmd] == a.value + (b.value + [cmd]);
    }
  }

  /** Two texts in one give the commands of both, and fail exactly when one of them fails. */
  lemma BodiesAppend(a: string, b: string, opts: Options)
    ensures ParsedBody(a + "\n" + b, opts) == Both(ParsedBody(a, opts), ParsedBody(b, opts))
  {
    SplitAppend(a, b, '\n');
    LinesAppend(Split(a, '\n'), Split(b, '\n'), opts);
  }

  /** More bases and a higher cap. */
  ghost predicate Wider(opts: Options, more: Options) {
    && opts.lower == more.lower && opts.cap <= more.cap
    && forall base | base in opts.bases :: base in more.bases
  }

  lemma {:induction false} FlagsWiden(words: seq<string>, flags: Flags, opts: Options, more: Options)
    requires Wider(opts, more) && ParseFlags(words, flags, opts).Some?
    ensures ParseFlags(words, flags, more) == ParseFlags(words, flags, opts)
    decreases |words|
  {
    if words != [] {
      if words[0] == "--dry-run" {
        FlagsWiden(words[1..], flags.(dryRun := true), opts, more);
      } else if words[0] == "--branch" {
        FlagsWiden(words[2..], flags.(branch := words[1]), opts, more);
      } else if words[0] == "--base" {
        FlagsWiden(words[2..], flags.(base := words[1]), opts, more);
      } else {
        FlagsWiden(words[2..], flags.(minutes := Atoi(words[1]).value), opts, more);
      }
    }
  }

  lemma {:induction false} LinesWiden(lines: seq<string>, opts: Options, more: Options)
    requires Wider(opts, more) && ParsedLines(lines, opts).Some?
    ensures ParsedLines(lines, more) == ParsedLines(lines, opts)
  {
    if lines != [] {
      LinesWiden(lines[..|lines| - 1], opts, more);
      var line := TrimSpace(lines[|lines| - 1]);
      if IsCommand(lines[|lines| - 1]) {
        FlagsWiden(Fields(line)[2..], NO_FLAGS, opts, more);
      }
    }
  }

  /** Widening the options never changes what was accepted. */
  lemma AcceptedStays(body: string, opts: Options, more: Options)
    requires Wider(opts, more) && ParsedBody(body, opts).Some?
    ensures ParsedBody(body, more) == ParsedBody(body, opts)
  {
    LinesWiden(Split(body, '\n'), opts, more);
  }

  // -------------------------------------------- intake, and the worker's second reading

  /** The cap with which a worker reads the command again. */
  const WORKER_CAP := 240

  /** Everything that intake accepts is accepted in the same way when the worker reads it again. */
  ghost predicate ReadsAlike(intake: Options) {
    forall body | ParsedBody(body, intake).Some? ::
      ParsedBody(body, intake.(cap := WORKER_CAP)) == ParsedBody(body, intake)
  }

  lemma TooPatient(minutes: int, opts: Options)
    requires opts.cap < minutes <= Decimal.MAX_INT64 && 30 <= minutes && Branches.Tables(opts.lower)
    ensures var body := Line(Plan, NO_FLAGS.(minutes := minutes));
            && ParsedBody(body, opts.(cap := minutes)).Some?
            && ParsedBody(body, opts).None?
  {
    PrintedParses(Plan, NO_FLAGS.(minutes := minutes), opts.(cap := minutes));
    NotAccepted(Line(Plan, NO_FLAGS.(minutes := minutes)), opts, opts.(cap := minutes));
  }

  lemma {:induction false} LinesValid(lines: seq<string>, opts: Options, i: nat)
    requires Branches.Tables(opts.lower) && ParsedLines(lines, opts).Some? && i < |ParsedLines(lines, opts).value|
    ensures ValidFlags(ParsedLines(lines, opts).value[i].flags, opts)
  {
    var front, last := lines[..|lines| - 1], lines[|lines| - 1];
    if i < |ParsedLines(front, opts).value| {
      LinesValid(front, opts, i);
    } else {
      ParsedIsPrintable(TrimSpace(last), opts);
    }
  }

  /** An accepted command is named by the second word of its line. */
  lemma {:induction false} LinesSpelled(lines: seq<string>, opts: Options, i: nat)
    requires ParsedLines(lines, opts).Some? && i < |ParsedLines(lines, opts).value|
    ensures var cmd := ParsedLines(lines, opts).value[i];
            |Fields(cmd.raw)| >= 2 && Fields(cmd.raw)[0] == "/codex" && Fields(cmd.raw)[1] == NameText(cmd.name)
  {
    var front, last := lines[..|lines| - 1], lines[|lines| - 1];
    if i < |ParsedLines(front, opts).value| {
      LinesSpelled(front, opts, i);
    } else {
      NameIsText(Fields(TrimSpace(last))[1]);
    }
  }

  lemma NotAccepted(body: string, opts: Options, wide: Options)
    requires Wider(opts, wide) && Branches.Tables(opts.lower) && ParsedBody(body, wide).Some?
    requires ParsedBody(body, wide).value != [] && ParsedBody(body, wide).value[0].flags.minutes > opts.cap
    requires ParsedBody(body, wide).value[0].flags.minutes != 0
    ensures ParsedBody(body, opts).None?
  {
    if ParsedBody(body, opts).Some? {
      AcceptedStays(body, opts, wide);
      LinesValid(Split(body, '\n'), opts, 0);
    }
  }

  /** The two readings agree on everything exactly when intake's cap is at most the worker's. */
  lemma ReadsAlikeExactly(intake: Options)
    requires Branches.Tables(intake.lower) && intake.cap <= Decimal.MAX_INT64
    ensures ReadsAlike(intake) <==> intake.cap <= 240
  {
    if intake.cap <= WORKER_CAP {
      forall body | ParsedBody(body, intake).Some?
        ensures ParsedBody(body, intake.(cap := WORKER_CAP)) == ParsedBody(body, intake)
      {
        AcceptedStays(body, intake, intake.(cap := WORKER_CAP));
      }
    } else {
      var body := Line(Plan, NO_FLAGS.(minutes := intake.cap));
      TooPatient(intake.cap, intake.(cap := WORKER_CAP));
      assert intake.(cap := WORKER_CAP).(cap := intake.cap) == intake;
      assert ParsedBody(body, intake).Some?;
    }
  }

  /** A branch that was accepted is used as it is, and passes the check of the checkout. */
  lemma AcceptedBranch(line: string, opts: Options, issue: int, delivery: string)
    requires Branches.Tables(opts.lower) && Parsed(line, opts).Some?
    ensures var branch := Parsed(line, opts).value.flags.branch;
            && (branch != "" ==> Branches.SafeBranch(branch, opts.lower))
            && (branch != "" ==> Branches.Chosen(issue, delivery, branch, opts.lower) == Some(branch))
  {
    ParsedIsPrintable(line, opts);
  }
}
