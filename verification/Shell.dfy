/** shellQuote of internal/worker/playwright.go, and the shell that reads its output. */
module Shell {
  import opened Text

  // ------------------------------------------ reading (sections 2.2 and 2.3 of POSIX XCU)

  /** A character of a word, and whether it was quoted. */
  datatype Letter = Letter(c: char, quoted: bool)

  type Word = seq<Letter>

  datatype Mode = Between | Inside | Single | Double

  /** Unquoted, these never stand for themselves: operators, expansions, patterns, comments, escapes. */
  predicate Special(c: char) {
    c in "|&;<>()$`\\\n*?[#~\0"
  }

  function Finish(word: Word, words: Option<seq<Word>>): Option<seq<Word>> {
    if words.Some? then Some([word] + words.value) else None
  }

  /** The words of a command, as section 2.3 of POSIX XCU delimits them. None if the text does more
      than list words: if a quote is left open, or a character calls for anything else. */
  function Lex(s: string, mode: Mode, word: Word): Option<seq<Word>>
    decreases |s|
  {
    match mode
    case Between =>
      if s == "" then Some([])
      else if s[0] == ' ' || s[0] == '\t' then Lex(s[1..], Between, [])
      else Open(s, [])
    case Inside =>
      if s == "" then Some([word])
      else if s[0] == ' ' || s[0] == '\t' then Finish(word, Lex(s[1..], Between, []))
      else Open(s, word)
    case Single =>
      if s == "" || s[0] == '\0' then None
      else if s[0] == '\'' then Lex(s[1..], Inside, word)
      else Lex(s[1..], Single, word + [Letter(s[0], true)])
    case Double =>
      if s == "" || s[0] in "$`\\\0" then None
      else if s[0] == '"' then Lex(s[1..], Inside, word)
      else Lex(s[1..], Double, word + [Letter(s[0], true)])
  }

  /** An unquoted character that is no blank. */
  function Open(s: string, word: Word): Option<seq<Word>>
    requires s != ""
    decreases |s|, 0
  {
    if s[0] == '\'' then Lex(s[1..], Single, word)
    else if s[0] == '"' then Lex(s[1..], Double, word)
    else if Special(s[0]) then None
    else Lex(s[1..], Inside, word + [Letter(s[0], false)])
  }

  function Read(s: string): Option<seq<Word>> {
    Lex(s, Between, [])
  }

  /** A text all of whose characters are quoted, or none. */
  function Spelled(s: string, quoted: bool): Word {
    if s == "" then [] else [Letter(s[0], quoted)] + Spelled(s[1..], quoted)
  }

  // ----------------------------------------------------------------------- quoting

  function ShellQuote(value: string): string {
    if value == "" then "''" else "'" + ReplaceAll(value, "'", "'\"'\"'") + "'"
  }

  lemma SpelledOne(c: char, s: string, quoted: bool, word: Word)
    ensures word + Spelled([c] + s, quoted) == (word + [Letter(c, quoted)]) + Spelled(s, quoted)
  {
    assert ([c] + s)[1..] == s;
  }

  /** The five characters that stand for a quote take the reader out of the quotes and back. */
  lemma QuoteEscaped(rest: string, word: Word)
    ensures Lex("'\"'\"'" + rest, Single, word) == Lex(rest, Single, word + [Letter('\'', true)])
  {
    var next := word + [Letter('\'', true)];
    var s4 := "'" + rest;
    assert s4[1..] == rest && Lex(s4, Inside, next) == Lex(rest, Single, next);
    var s3 := "\"" + s4;
    assert s3[1..] == s4 && Lex(s3, Double, next) == Lex(s4, Inside, next);
    var s2 := "'" + s3;
    assert s2[1..] == s3 && Lex(s2, Double, word) == Lex(s3, Double, next);
    var s1 := "\"" + s2;
    assert s1[1..] == s2 && Lex(s1, Inside, word) == Lex(s2, Double, word);
    var s0 := "'" + s1;
    assert s0[1..] == s1 && Lex(s0, Single, word) == Lex(s1, Inside, word);
    assert s0 == "'\"'\"'" + rest;
  }

  /** Reading the inside of a quoted value, up to and with the closing quote. */
  lemma {:induction false} InsideQuotes(v: string, rest: string, word: Word)
    requires '\0' !in v
    ensures Lex(ReplaceAll(v, "'", "'\"'\"'") + "'" + rest, Single, word) == Lex(rest, Inside, word + Spelled(v, true))
  {
    if v == "" {
      assert "" + "'" + rest == ['\''] + rest && (['\''] + rest)[1..] == rest;
      assert word + [] == word;
    } else {
      var tail := ReplaceAll(v[1..], "'", "'\"'\"'");
      assert v == [v[0]] + v[1..];
      SpelledOne(v[0], v[1..], true, word);
      InsideQuotes(v[1..], rest, word + [Letter(v[0], true)]);
      InsideStep(v, tail, tail + "'" + rest, rest, word);
    }
  }

  lemma InsideStep(v: string, tail: string, end: string, rest: string, word: Word)
    requires v != "" && v[0] != '\0' && tail == ReplaceAll(v[1..], "'", "'\"'\"'") && end == tail + "'" + rest
    ensures Lex(ReplaceAll(v, "'", "'\"'\"'") + "'" + rest, Single, word)
         == Lex(end, Single, word + [Letter(v[0], true)])
  {
    var s := ReplaceAll(v, "'", "'\"'\"'") + "'" + rest;
    if v[0] == '\'' {
      assert HasPrefix(v, "'");
      assert s == "'\"'\"'" + end;
      QuoteEscaped(end, word);
    } else {
      assert !HasPrefix(v, "'");
      assert s == [v[0]] + end && s[1..] == end;
    }
  }

  /** The shell undoes the quoting, wherever it stands: behind a blank or inside a word. */
  lemma QuotedReads(v: string, rest: string, mode: Mode, word: Word)
    requires '\0' !in v && (mode == Inside || (mode == Between && word == []))
    ensures Lex(ShellQuote(v) + rest, mode, word) == Lex(rest, Inside, word + Spelled(v, true))
  {
    var s := ShellQuote(v) + rest;
    var inner := ReplaceAll(v, "'", "'\"'\"'") + "'" + rest;
    assert s == "'" + inner && s[0] == '\'' && s[1..] == inner;
    InsideQuotes(v, rest, word);
  }

  /** On its own, a quoted value is one word, fully quoted: the value. */
  lemma QuoteRoundTrip(v: string)
    requires '\0' !in v
    ensures Read(ShellQuote(v)) == Some([Spelled(v, true)])
  {
    QuotedReads(v, "", Between, []);
    assert ShellQuote(v) + "" == ShellQuote(v) && [] + Spelled(v, true) == Spelled(v, true);
  }

  // ------------------------------------------------- the command that installs the browsers

  const BROWSERS_PATH := "PLAYWRIGHT_BROWSERS_PATH="

  /** The browsers that are named at all, without the blanks around them. */
  function Named(browsers: seq<string>): seq<string> {
    if browsers == [] then []
    else
      var last := TrimSpace(browsers[|browsers| - 1]);
      Named(browsers[..|browsers| - 1]) + if last == "" then [] else [last]
  }

  function QuoteAll(values: seq<string>): seq<string> {
    if values == [] then [] else QuoteAll(values[..|values| - 1]) + [ShellQuote(values[|values| - 1])]
  }

  function InstallParts(path: string, node: string, cli: string, browsers: seq<string>): seq<string> {
    HeadParts(BROWSERS_PATH, path, node, cli) + TailParts("install", browsers)
  }

  function HeadParts(name: string, path: string, node: string, cli: string): seq<string> {
    [name + ShellQuote(path)] + [ShellQuote(node)] + [ShellQuote(cli)]
  }

  function TailParts(install: string, browsers: seq<string>): seq<string> {
    [install] + QuoteAll(Named(browsers))
  }

  lemma QuoteAllOne(values: seq<string>, v: string)
    ensures QuoteAll(values + [v]) == QuoteAll(values) + [ShellQuote(v)]
  {
    assert (values + [v])[..|values|] == values;
  }

  lemma FourAndMore(a: string, b: string, c: string, d: string, rest: seq<string>)
    ensures [a, b, c, d] + rest == ([a] + [b] + [c]) + ([d] + rest)
  {
  }

  method PlaywrightInstallCommand(path: string, node: string, cli: string, browsers: seq<string>)
    returns (command: string)
    ensures command == Join(InstallParts(path, node, cli, browsers), " ")
  {
    var parts := [BROWSERS_PATH + ShellQuote(path), ShellQuote(node), ShellQuote(cli), "install"];
    ghost var head := parts;
    for i := 0 to |browsers|
      invariant parts == head + QuoteAll(Named(browsers[..i]))
    {
      assert browsers[..i + 1][..i] == browsers[..i];
      var browser := TrimSpace(browsers[i]);
      if browser == "" {
        assert Named(browsers[..i]) + [] == Named(browsers[..i]);
        continue;
      }
      QuoteAllOne(Named(browsers[..i]), browser);
      parts := parts + [ShellQuote(browser)];
    }
    assert browsers[..|browsers|] == browsers;
    FourAndMore(BROWSERS_PATH + ShellQuote(path), ShellQuote(node), ShellQuote(cli), "install",
                QuoteAll(Named(browsers)));
    return Join(parts, " ");
  }

  ghost predicate NoNul(s: string) {
    '\0' !in s
  }

  /** A part of a command, and the word that it stands for. */
  ghost predicate StandsFor(part: string, word: Word) {
    forall rest: string :: Lex(part + rest, Between, []) == Lex(rest, Inside, word)
  }

  lemma QuoteStands(v: string)
    requires NoNul(v)
    ensures StandsFor(ShellQuote(v), Spelled(v, true))
  {
    forall rest: string
      ensures Lex(ShellQuote(v) + rest, Between, []) == Lex(rest, Inside, Spelled(v, true))
    {
      QuotedReads(v, rest, Between, []);
      assert [] + Spelled(v, true) == Spelled(v, true);
    }
  }

  predicate PlainChar(c: char) {
    'a' <= c <= 'z' || 'A' <= c <= 'Z' || c == '_' || c == '='
  }

  lemma PlainOne(c: char, s: string, word: Word)
    requires PlainChar(c)
    ensures Lex([c] + s, Inside, word) == Lex(s, Inside, word + [Letter(c, false)])
  {
    assert ([c] + s)[1..] == s;
  }

  lemma {:induction false} PlainReads(s: string, rest: string, word: Word)
    requires forall i | 0 <= i < |s| :: PlainChar(s[i])
    ensures Lex(s + rest, Inside, word) == Lex(rest, Inside, word + Spelled(s, false))
  {
    if s == "" {
      assert s + rest == rest && word + [] == word;
    } else {
      assert s == [s[0]] + s[1..] && s + rest == [s[0]] + (s[1..] + rest);
      SpelledOne(s[0], s[1..], false, word);
      PlainOne(s[0], s[1..] + rest, word);
      PlainReads(s[1..], rest, word + [Letter(s[0], false)]);
    }
  }

  /** Behind a blank, a plain word begins like inside one. */
  lemma PlainBegins(s: string, rest: string)
    requires s != "" && forall i | 0 <= i < |s| :: PlainChar(s[i])
    ensures Lex(s + rest, Between, []) == Lex(s + rest, Inside, [])
  {
    assert (s + rest)[0] == s[0];
  }

  lemma PlainReadsBetween(s: string, rest: string)
    requires s != "" && forall i | 0 <= i < |s| :: PlainChar(s[i])
    ensures Lex(s + rest, Between, []) == Lex(rest, Inside, Spelled(s, false))
  {
    PlainBegins(s, rest);
    PlainReads(s, rest, []);
    assert [] + Spelled(s, false) == Spelled(s, false);
  }

  lemma PlainStands(s: string)
    requires s != "" && forall i | 0 <= i < |s| :: PlainChar(s[i])
    ensures StandsFor(s, Spelled(s, false))
  {
    forall rest: string
      ensures Lex(s + rest, Between, []) == Lex(rest, Inside, Spelled(s, false))
    {
      PlainReadsBetween(s, rest);
    }
  }

  lemma AssignmentStands(name: string, value: string)
    requires name != "" && (forall i | 0 <= i < |name| :: PlainChar(name[i])) && NoNul(value)
    ensures StandsFor(name + ShellQuote(value), Spelled(name, false) + Spelled(value, true))
  {
    forall rest: string
      ensures Lex(name + ShellQuote(value) + rest, Between, [])
           == Lex(rest, Inside, Spelled(name, false) + Spelled(value, true))
    {
      var tail := ShellQuote(value) + rest;
      assert name + ShellQuote(value) + rest == name + tail;
      PlainBegins(name, tail);
      PlainReads(name, tail, []);
      assert [] + Spelled(name, false) == Spelled(name, false);
      QuotedReads(value, rest, Inside, Spelled(name, false));
    }
  }

  ghost predicate AllStandFor(parts: seq<string>, words: seq<Word>) {
    |parts| == |words| && forall i | 0 <= i < |parts| :: StandsFor(parts[i], words[i])
  }

  /** Parts joined by blanks are read one by one. */
  lemma {:induction false} JoinedParts(parts: seq<string>, words: seq<Word>)
    requires AllStandFor(parts, words) && parts != []
    ensures Read(Join(parts, " ")) == Some(words)
  {
    assert StandsFor(parts[0], words[0]);
    if |parts| == 1 {
      assert parts[0] + "" == parts[0];
      assert words == [words[0]];
    } else {
      assert forall i | 0 <= i < |parts[1..]| :: StandsFor(parts[1..][i], words[1..][i]) by {
        forall i | 0 <= i < |parts[1..]|
          ensures StandsFor(parts[1..][i], words[1..][i])
        {
          assert StandsFor(parts[i + 1], words[i + 1]);
        }
      }
      JoinedParts(parts[1..], words[1..]);
      var rest := " " + Join(parts[1..], " ");
      assert Join(parts, " ") == parts[0] + rest && rest[1..] == Join(parts[1..], " ");
      assert [words[0]] + words[1..] == words;
    }
  }

  function SpelledAll(values: seq<string>): seq<Word> {
    if values == [] then [] else SpelledAll(values[..|values| - 1]) + [Spelled(values[|values| - 1], true)]
  }

  lemma {:induction false} QuoteAllStand(values: seq<string>)
    requires forall i | 0 <= i < |values| :: NoNul(values[i])
    ensures AllStandFor(QuoteAll(values), SpelledAll(values))
  {
    if values != [] {
      QuoteAllStand(values[..|values| - 1]);
      QuoteStands(values[|values| - 1]);
    }
  }

  lemma TrimKeepsNoNul(s: string)
    requires NoNul(s)
    ensures NoNul(TrimSpace(s))
  {
    var l, r := TrimParts(s, IsSpace);
    assert forall c | c in TrimSpace(s) :: c in s;
  }

  lemma {:induction false} NamedNoNul(browsers: seq<string>)
    requires forall i | 0 <= i < |browsers| :: NoNul(browsers[i])
    ensures forall i | 0 <= i < |Named(browsers)| :: NoNul(Named(browsers)[i])
  {
    if browsers != [] {
      NamedNoNul(browsers[..|browsers| - 1]);
      TrimKeepsNoNul(browsers[|browsers| - 1]);
    }
  }

  lemma StandAppend(a: seq<string>, v: seq<Word>, b: seq<string>, w: seq<Word>)
    requires AllStandFor(a, v) && AllStandFor(b, w)
    ensures AllStandFor(a + b, v + w)
  {
  }

  lemma OneStands(part: string, word: Word)
    requires StandsFor(part, word)
    ensures AllStandFor([part], [word])
  {
  }

  function HeadWords(name: string, path: string, node: string, cli: string): seq<Word> {
    [Spelled(name, false) + Spelled(path, true)] + [Spelled(node, true)] + [Spelled(cli, true)]
  }

  function TailWords(install: string, browsers: seq<string>): seq<Word> {
    [Spelled(install, false)] + SpelledAll(Named(browsers))
  }

  lemma HeadStands(name: string, path: string, node: string, cli: string)
    requires name != "" && (forall i | 0 <= i < |name| :: PlainChar(name[i]))
    requires NoNul(path) && NoNul(node) && NoNul(cli)
    ensures AllStandFor(HeadParts(name, path, node, cli), HeadWords(name, path, node, cli))
  {
    AssignmentStands(name, path);
    OneStands(name + ShellQuote(path), Spelled(name, false) + Spelled(path, true));
    QuoteStands(node);
    OneStands(ShellQuote(node), Spelled(node, true));
    QuoteStands(cli);
    OneStands(ShellQuote(cli), Spelled(cli, true));
    StandAppend([name + ShellQuote(path)], [Spelled(name, false) + Spelled(path, true)],
                [ShellQuote(node)], [Spelled(node, true)]);
    StandAppend([name + ShellQuote(path)] + [ShellQuote(node)],
                [Spelled(name, false) + Spelled(path, true)] + [Spelled(node, true)],
                [ShellQuote(cli)], [Spelled(cli, true)]);
  }

  lemma TailStands(install: string, browsers: seq<string>)
    requires install != "" && forall i | 0 <= i < |install| :: PlainChar(install[i])
    requires forall i | 0 <= i < |browsers| :: NoNul(browsers[i])
    ensures AllStandFor(TailParts(install, browsers), TailWords(install, browsers))
  {
    PlainStands(install);
    OneStands(install, Spelled(install, false));
    NamedNoNul(browsers);
    QuoteAllStand(Named(browsers));
    StandAppend([install], [Spelled(install, false)], QuoteAll(Named(browsers)), SpelledAll(Named(browsers)));
  }

  lemma PartsRead(head: seq<string>, v: seq<Word>, tail: seq<string>, w: seq<Word>)
    requires AllStandFor(head, v) && AllStandFor(tail, w) && tail != []
    ensures Read(Join(head + tail, " ")) == Some(v + w)
  {
    StandAppend(head, v, tail, w);
    JoinedParts(head + tail, v + w);
  }

  /** The shell reads the command as the assignment, the program, its script, the plain word "install",
      and each browser as one quoted word, whatever these texts hold. */
  lemma InstallCommandReads(name: string, path: string, node: string, cli: string, install: string,
                            browsers: seq<string>)
    requires name == BROWSERS_PATH && install == "install"
    requires NoNul(path) && NoNul(node) && NoNul(cli)
    requires forall i | 0 <= i < |browsers| :: NoNul(browsers[i])
    ensures Read(Join(InstallParts(path, node, cli, browsers), " "))
         == Some(HeadWords(name, path, node, cli) + TailWords(install, browsers))
  {
    PlainConstants(name, install);
    HeadStands(name, path, node, cli);
    TailStands(install, browsers);
    PartsRead(HeadParts(name, path, node, cli), HeadWords(name, path, node, cli),
              TailParts(install, browsers), TailWords(install, browsers));
  }

  lemma PlainConstants(name: string, install: string)
    requires name == BROWSERS_PATH && install == "install"
    ensures name != "" && install != ""
    ensures forall i | 0 <= i < |name| :: PlainChar(name[i])
    ensures forall i | 0 <= i < |install| :: PlainChar(install[i])
  {
  }

  lemma {:induction false} SpelledEach(values: seq<string>)
    ensures |SpelledAll(values)| == |values|
    ensures forall k | 0 <= k < |values| :: SpelledAll(values)[k] == Spelled(values[k], true)
  {
    if values != [] {
      SpelledEach(values[..|values| - 1]);
    }
  }

  /** The places of the browsers that are named. */
  ghost predicate NamedAt(browsers: seq<string>, named: seq<string>, at: seq<nat>) {
    && Ascends(at, |browsers|) && |at| == |named|
    && (forall k | 0 <= k < |named| :: named[k] == TrimSpace(browsers[at[k]]))
    && (forall i | 0 <= i < |browsers| :: i in at <==> TrimSpace(browsers[i]) != "")
  }

  lemma {:induction false} NamedPlaces(browsers: seq<string>) returns (at: seq<nat>)
    ensures NamedAt(browsers, Named(browsers), at)
  {
    at := [];
    if browsers != [] {
      var front, last := browsers[..|browsers| - 1], browsers[|browsers| - 1];
      at := NamedPlaces(front);
      AscendsMore(at, |front|);
      if TrimSpace(last) != "" {
        at := at + [|front|];
      }
    }
  }

  /** The browsers that are not blank, in order, without the blanks around them, each as one quoted word. */
  ghost predicate BrowserWords(words: seq<Word>, browsers: seq<string>, at: seq<nat>) {
    && Ascends(at, |browsers|) && (forall i | 0 <= i < |browsers| :: i in at <==> TrimSpace(browsers[i]) != "")
    && |words| == |at| && forall k | 0 <= k < |at| :: words[k] == Spelled(TrimSpace(browsers[at[k]]), true)
  }

  lemma NamedAreBrowsers(browsers: seq<string>) returns (at: seq<nat>)
    ensures BrowserWords(SpelledAll(Named(browsers)), browsers, at)
  {
    at := NamedPlaces(browsers);
    SpelledEach(Named(browsers));
  }

  lemma FourWords(a: Word, b: Word, c: Word, d: Word, rest: seq<Word>)
    ensures [a] + [b] + [c] + ([d] + rest) == [a, b, c, d] + rest
  {
  }

  /** What the shell makes of the command: the assignment of the path, the program, its script, "install", and
      the browsers. */
  lemma InstallCommandMeans(name: string, path: string, node: string, cli: string, install: string,
                            browsers: seq<string>) returns (words: seq<Word>, at: seq<nat>)
    requires name == "PLAYWRIGHT_BROWSERS_PATH=" && install == "install"
    requires NoNul(path) && NoNul(node) && NoNul(cli)
    requires forall i | 0 <= i < |browsers| :: NoNul(browsers[i])
    ensures BrowserWords(words, browsers, at)
    ensures Read(Join(InstallParts(path, node, cli, browsers), " "))
         == Some([Spelled(name, false) + Spelled(path, true), Spelled(node, true), Spelled(cli, true),
                  Spelled(install, false)] + words)
  {
    assert name == BROWSERS_PATH;
    InstallCommandReads(name, path, node, cli, install, browsers);
    words := SpelledAll(Named(browsers));
    at := NamedAreBrowsers(browsers);
    FourWords(Spelled(name, false) + Spelled(path, true), Spelled(node, true), Spelled(cli, true),
              Spelled(install, false), words);
  }
}
