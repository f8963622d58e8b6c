/** internal/worker/change_title.go: the title shared by the pull request and the commit. */
module ChangeTitle {
  import opened Text
  import opened Utf8
  import opened Decimal
  import opened PublicComment

  const PREFIX := "Codex: "

  // ----------------------------------------------------- cleaning a candidate

  function DigitCount(s: string): (n: nat)
    ensures n <= |s|
  {
    if s != "" && IsDigit(s[0]) then 1 + DigitCount(s[1..]) else 0
  }

  /** Without the bullet or the number of a list item. */
  function Unlisted(title: string): string {
    if HasPrefix(title, "- ") || HasPrefix(title, "* ") || HasPrefix(title, "\U{2022} ") then title[2..]
    else
      var n := DigitCount(title);
      if 0 < n && n + 1 < |title| && (title[n] == '.' || title[n] == ')') && IsSpace(title[n + 1]) then title[n + 2..]
      else title
  }

  method StripListMarker(title: string) returns (r: string)
    ensures r == Unlisted(title)
  {
    if title == "" {
      return "";
    }
    var markers := ["- ", "* ", "\U{2022} "];
    for i := 0 to |markers|
      invariant forall k | 0 <= k < i :: !HasPrefix(title, markers[k])
    {
      if HasPrefix(title, markers[i]) {
        return title[2..];
      }
    }
    assert markers[0] == "- " && markers[1] == "* " && markers[2] == "\U{2022} ";
    var digits := 0;
    while digits < |title| && IsDigit(title[digits])
      invariant 0 <= digits <= |title|
      invariant DigitCount(title) == digits + DigitCount(title[digits..])
    {
      assert title[digits..][1..] == title[digits + 1..];
      digits := digits + 1;
    }
    if digits == 0 || digits >= |title| {
      return title;
    }
    if (title[digits] == '.' || title[digits] == ')') && digits + 1 < |title| && IsSpace(title[digits + 1]) {
      return title[digits + 2..];
    }
    return title;
  }

  function Cleaned(title: string): string {
    TrimSpace(TrimSuffix(TrimSpace(TrimSpace(Unlisted(TrimSpace(title)))), "."))
  }

  method CleanChangeTitle(title: string) returns (r: string)
    ensures r == Cleaned(title)
  {
    r := StripListMarker(TrimSpace(title));
    r := TrimSpace(TrimSpace(r));
    r := TrimSpace(TrimSuffix(r, "."));
  }

  // ------------------------------------------------------ cutting a candidate

  /** The longest prefix of whole characters that fits, with the spaces a cut can expose removed. */
  function TitleCut(title: string, maxBytes: int): string {
    if maxBytes <= 0 then "" else TrimSpace(Fit(TrimSpace(title), maxBytes))
  }

  method TrimTitleBytes(title: string, maxBytes: int) returns (r: string)
    ensures r == TitleCut(title, maxBytes)
  {
    if maxBytes <= 0 {
      return "";
    }
    r := TrimSpace(title);
    StartTrimming(title, maxBytes);
    while ByteLen(r) > maxBytes
      invariant Trimming(title, maxBytes, r)
      decreases |r|
    {
      DropLast(title, maxBytes, r);
      r := TrimSpace(r[..|r| - 1]);
    }
    StopTrimming(title, maxBytes, r);
  }

  /** What is left of the title is tight and still has the same cut. */
  ghost predicate Trimming(title: string, maxBytes: int, s: string) {
    && maxBytes > 0 && Tight(s, IsSpace)
    && TrimSpace(Fit(s, maxBytes)) == TitleCut(title, maxBytes)
  }

  lemma StartTrimming(title: string, maxBytes: int)
    requires maxBytes > 0
    ensures Trimming(title, maxBytes, TrimSpace(title))
  {
    var _, _ := TrimParts(title, IsSpace);
  }

  lemma StopTrimming(title: string, maxBytes: int, s: string)
    requires Trimming(title, maxBytes, s) && ByteLen(s) <= maxBytes
    ensures s == TitleCut(title, maxBytes)
  {
    TrimTight(s, IsSpace);
  }

  lemma DropLast(title: string, maxBytes: int, s: string)
    requires Trimming(title, maxBytes, s) && ByteLen(s) > maxBytes
    ensures Trimming(title, maxBytes, TrimSpace(s[..|s| - 1])) && |TrimSpace(s[..|s| - 1])| < |s|
  {
    var shorter := s[..|s| - 1];
    TrimCommutesWithFit(shorter, maxBytes);
    var _, _ := TrimParts(shorter, IsSpace);
  }

  /** Trimming before the cut makes no difference after it. */
  lemma TrimCommutesWithFit(s: string, maxBytes: int)
    requires maxBytes > 0 && (s == "" || !IsSpace(s[0]))
    ensures TrimSpace(Fit(TrimSpace(s), maxBytes)) == TrimSpace(Fit(s, maxBytes))
  {
    var t := TrimRight(s, IsSpace);
    assert TrimLeft(s, IsSpace) == s;
    TrimRightCuts(s, IsSpace);
    if |Fit(s, maxBytes)| <= |t| {
      CutBefore(s, |t|, maxBytes);
    } else {
      CutBehind(s, |t|, maxBytes);
    }
  }

  lemma CutBefore(s: string, n: nat, maxBytes: int)
    requires maxBytes > 0 && |Fit(s, maxBytes)| <= n <= |s|
    ensures Fit(s[..n], maxBytes) == Fit(s, maxBytes)
  {
    var f, t := Fit(s, maxBytes), s[..n];
    assert forall k | 0 <= k <= n :: s[..k] == t[..k];
    FitIsLongest(s, maxBytes);
    assert f == s[..|f|] == t[..|f|];
    FitUnique(t, maxBytes, f);
  }

  /** A prefix that is longer than n: the first n characters, and some of the rest. */
  lemma PrefixParts(s: string, f: string, n: nat)
    requires f <= s && n <= |f|
    ensures f[..n] == s[..n] && f == s[..n] + f[n..]
  {
  }

  lemma PadIsSpace(s: string, f: string, n: nat)
    requires f <= s && n <= |f| && All(s[n..], IsSpace)
    ensures All(f[n..], IsSpace)
  {
    assert forall i | 0 <= i < |f[n..]| :: f[n..][i] == s[n..][i];
  }

  lemma FitOfShort(t: string, pad: string, maxBytes: int)
    requires maxBytes > 0 && ByteLen(t + pad) <= maxBytes
    ensures Fit(t, maxBytes) == t
  {
    ByteLenAppend(t, pad);
  }

  lemma CutBehind(s: string, n: nat, maxBytes: int)
    requires maxBytes > 0 && n < |Fit(s, maxBytes)| && n <= |s| && All(s[n..], IsSpace)
    ensures TrimSpace(Fit(s[..n], maxBytes)) == TrimSpace(Fit(s, maxBytes))
  {
    var f := Fit(s, maxBytes);
    FitIsLongest(s, maxBytes);
    PrefixParts(s, f, n);
    PadIsSpace(s, f, n);
    FitOfShort(s[..n], f[n..], maxBytes);
    TrimBehind(s[..n], f[n..]);
  }

  lemma TrimBehind(t: string, pad: string)
    requires All(pad, IsSpace)
    ensures TrimSpace(t + pad) == TrimSpace(t)
  {
    assert [] + t + pad == t + pad;
    TrimPadded([], t, pad, IsSpace);
  }

  lemma FitUnique(s: string, maxBytes: int, r: string)
    requires maxBytes > 0 && r <= s && ByteLen(r) <= maxBytes
    requires forall k | |r| < k <= |s| :: ByteLen(s[..k]) > maxBytes
    ensures Fit(s, maxBytes) == r
  {
    var f := Fit(s, maxBytes);
    FitIsLongest(s, maxBytes);
    assert s[..|f|] == f && s[..|r|] == r;
  }

  // -------------------------------------------------------------- the title

  function Suffix(number: string): string {
    " (#" + number + ")"
  }

  /** The bytes that the prefix and the suffix leave for the candidate. */
  function Room(suffix: string): int {
    MAX_TITLE_BYTES - |PREFIX| - |suffix|
  }

  function FallbackChangeTitle(number: string): string {
    "Codex changes for issue #" + number
  }

  /** What is left of a candidate between the prefix and the suffix; empty when it is unusable. */
  function Middle(candidate: string, number: string): string {
    TitleCut(candidate, Room(Suffix(number)))
  }

  function Assembled(middle: string, number: string): string {
    PREFIX + middle + Suffix(number)
  }

  /** Something is left of the candidate, and the title made of it may be published. */
  predicate Usable(candidate: string, number: string, sensitive: string -> bool) {
    var middle := Middle(candidate, number);
    candidate != "" && middle != "" && !sensitive(TrimSpace(StripControl(Assembled(middle, number))))
  }

  function CandidateTitle(candidate: string, number: string, sensitive: string -> bool): string {
    SafeTitleOf(Assembled(Middle(candidate, number), number), sensitive)
  }

  /** The title that a candidate gives, once it is cleaned. */
  function TitleOf(candidate: string, number: string, sensitive: string -> bool): Option<string> {
    if Usable(candidate, number, sensitive) then Some(CandidateTitle(candidate, number, sensitive)) else None
  }

  /** The title of the first usable candidate, or the fallback when there is none. */
  function FirstTitle(candidates: seq<string>, number: string, sensitive: string -> bool): string {
    if candidates == [] then FallbackChangeTitle(number)
    else
      match TitleOf(Cleaned(candidates[0]), number, sensitive)
      case Some(title) => title
      case None => FirstTitle(candidates[1..], number, sensitive)
  }

  /** The fallback title comes out only for a title that may not be published. */
  lemma FallbackMeansSensitive(middle: string, number: string, sensitive: string -> bool)
    requires IsNumber(number) || number == ""
    ensures SafeTitleOf(Assembled(middle, number), sensitive) == FALLBACK_TITLE
       <==> sensitive(TrimSpace(StripControl(Assembled(middle, number))))
  {
    var title := PREFIX + StripControl(middle) + Suffix(number);
    StripTitle(middle, number);
    assert title[0] == 'C' && title[5] == ':' && title[|title| - 1] == ')';
    NotFallback(title, sensitive);
  }

  lemma NotFallback(title: string, sensitive: string -> bool)
    requires |title| > 5 && title[0] == 'C' && title[5] == ':' && title[|title| - 1] == ')'
    ensures TrimSpace(title) == title && Fit(title, MAX_TITLE_BYTES) != FALLBACK_TITLE
  {
    TrimTight(title, IsSpace);
    FitIsLongest(title, MAX_TITLE_BYTES);
    var r := Fit(title, MAX_TITLE_BYTES);
    assert |r| > 5 ==> r[5] == ':';
    assert FALLBACK_TITLE[5] == ' ';
  }

  method Attempt(candidate: string, number: string, sensitive: string -> bool) returns (title: Option<string>)
    requires IsNumber(number) || number == ""
    ensures title == TitleOf(candidate, number, sensitive)
  {
    if candidate == "" {
      return None;
    }
    var suffix := Suffix(number);
    var middle := TrimTitleBytes(candidate, Room(suffix));
    if middle == "" {
      return None;
    }
    var safe := SafeTitle(PREFIX + middle + suffix, sensitive);
    FallbackMeansSensitive(middle, number, sensitive);
    return if safe != FALLBACK_TITLE then Some(safe) else None;
  }

  /** The candidates are, in order, the first summary bullet, the summary and the changed files. */
  method ImplementationChangeTitle(candidates: seq<string>, issue: int, sensitive: string -> bool)
    returns (title: string)
    requires issue <= MAX_INT64
    ensures title == FirstTitle(candidates, Digits(issue), sensitive)
  {
    var number := Itoa(issue);
    DigitsText(issue);
    for i := 0 to |candidates|
      invariant FirstTitle(candidates, number, sensitive) == FirstTitle(candidates[i..], number, sensitive)
    {
      var candidate := CleanChangeTitle(candidates[i]);
      var safe := Attempt(candidate, number, sensitive);
      assert candidates[i..][1..] == candidates[i + 1..];
      if safe.Some? {
        return safe.value;
      }
    }
    return FallbackChangeTitle(number);
  }

  /** A title that PublicComment.SafeTitle leaves alone, and that names the issue. */
  ghost predicate GoodTitle(title: string, number: string, sensitive: string -> bool) {
    && ByteLen(title) <= MAX_TITLE_BYTES
    && SafeTitleOf(title, sensitive) == title
    && (title == FallbackChangeTitle(number)
        || (HasPrefix(title, PREFIX) && HasSuffix(title, Suffix(number))))
  }

  lemma TitleOfIsGood(candidate: string, number: string, sensitive: string -> bool)
    requires IsNumber(number) && TitleOf(candidate, number, sensitive).Some?
    ensures GoodTitle(TitleOf(candidate, number, sensitive).value, number, sensitive)
  {
    MiddleFits(candidate, number);
    UsableIsGood(Middle(candidate, number), number, sensitive);
  }

  /** Whatever the candidates are, the title is short enough, names the issue, and is not changed when
      SafeTitle is applied to it again: the pull request and the commit get the same one. */
  lemma {:induction false} TitleIsGood(candidates: seq<string>, number: string, sensitive: string -> bool)
    requires IsNumber(number) && !sensitive(FallbackChangeTitle(number))
    ensures GoodTitle(FirstTitle(candidates, number, sensitive), number, sensitive)
  {
    if candidates == [] {
      FallbackIsGood(number, sensitive);
    } else if TitleOf(Cleaned(candidates[0]), number, sensitive).Some? {
      TitleOfIsGood(Cleaned(candidates[0]), number, sensitive);
    } else {
      TitleIsGood(candidates[1..], number, sensitive);
    }
  }

  /** One to nineteen digits: the number of an issue, in 64 bits. */
  ghost predicate IsNumber(number: string) {
    1 <= |number| <= 19 && forall i | 0 <= i < |number| :: '0' <= number[i] <= '9'
  }

  lemma DigitsText(issue: int)
    requires issue <= MAX_INT64
    ensures issue >= 0 ==> IsNumber(Digits(issue))
    ensures issue < 0 ==> Digits(issue) == ""
  {
    if issue >= 0 {
      Int64Digits(issue);
    }
  }

  lemma FallbackIsGood(number: string, sensitive: string -> bool)
    requires IsNumber(number) && !sensitive(FallbackChangeTitle(number))
    ensures GoodTitle(FallbackChangeTitle(number), number, sensitive)
  {
    PlainTitleFixed(FallbackChangeTitle(number), sensitive);
  }

  lemma AssembledEnds(m: string, number: string)
    ensures var title := PREFIX + m + Suffix(number);
            && title != "" && title[0] == 'C' && title[|title| - 1] == ')'
            && HasPrefix(title, PREFIX) && HasSuffix(title, Suffix(number))
  {
    var title := PREFIX + m + Suffix(number);
    assert title[|PREFIX + m|..] == Suffix(number);
  }

  lemma RoomIsEnough(middle: string, number: string)
    requires IsNumber(number) && ByteLen(middle) <= Room(Suffix(number))
    ensures ByteLen(PREFIX + StripControl(middle) + Suffix(number)) <= MAX_TITLE_BYTES
  {
    TitleBytes(middle, number);
  }

  /** Cutting the candidate leaves room for the suffix, and stripping control characters cannot
      reach the prefix or the suffix. */
  lemma UsableIsGood(middle: string, number: string, sensitive: string -> bool)
    requires IsNumber(number)
    requires ByteLen(middle) <= Room(Suffix(number))
    requires !sensitive(TrimSpace(StripControl(Assembled(middle, number))))
    ensures GoodTitle(SafeTitleOf(Assembled(middle, number), sensitive), number, sensitive)
  {
    var title := PREFIX + StripControl(middle) + Suffix(number);
    StripTitle(middle, number);
    AssembledEnds(StripControl(middle), number);
    RoomIsEnough(middle, number);
    TitleShape(title, sensitive);
    SameTitle(Assembled(middle, number), title, sensitive);
  }

  lemma SameTitle(a: string, title: string, sensitive: string -> bool)
    requires TrimSpace(StripControl(a)) == TrimSpace(StripControl(title))
    ensures SafeTitleOf(a, sensitive) == SafeTitleOf(title, sensitive)
  {
  }

  lemma TitleShape(title: string, sensitive: string -> bool)
    requires Clean(title) && title != "" && title[0] == 'C' && title[|title| - 1] == ')'
    requires ByteLen(title) <= MAX_TITLE_BYTES
    ensures TrimSpace(StripControl(title)) == title
    ensures !sensitive(title) ==> SafeTitleOf(title, sensitive) == title
  {
    StripClean(title);
    TrimTight(title, IsSpace);
  }

  lemma StripTitle(middle: string, number: string)
    requires IsNumber(number) || number == ""
    ensures StripControl(PREFIX + middle + Suffix(number)) == PREFIX + StripControl(middle) + Suffix(number)
    ensures Clean(PREFIX + StripControl(middle) + Suffix(number))
  {
    assert Clean(PREFIX) && Clean(Suffix(number));
    StripAppend(PREFIX + middle, Suffix(number));
    StripAppend(PREFIX, middle);
    StripClean(PREFIX);
    StripClean(Suffix(number));
  }

  lemma ThreeParts(head: string, middle: string, tail: string)
    ensures ByteLen(head + middle + tail) == ByteLen(head) + ByteLen(middle) + ByteLen(tail)
  {
    ByteLenAppend(head + middle, tail);
    ByteLenAppend(head, middle);
  }

  lemma SuffixBytes(number: string)
    requires IsNumber(number)
    ensures ByteLen(PREFIX) == |PREFIX| && ByteLen(Suffix(number)) == |Suffix(number)|
  {
    ByteLenAscii(PREFIX);
    ByteLenAscii(Suffix(number));
  }

  lemma TitleBytes(middle: string, number: string)
    requires IsNumber(number)
    ensures ByteLen(PREFIX + StripControl(middle) + Suffix(number)) <= |PREFIX| + ByteLen(middle) + |Suffix(number)|
  {
    ThreeParts(PREFIX, StripControl(middle), Suffix(number));
    SuffixBytes(number);
    StripShortens(middle);
  }

  lemma {:induction false} StripShortens(s: string)
    ensures ByteLen(StripControl(s)) <= ByteLen(s)
  {
    if s != "" {
      StripShortens(s[1..]);
    }
  }

  lemma MiddleFits(candidate: string, number: string)
    ensures Middle(candidate, number) != "" ==>
      ByteLen(Middle(candidate, number)) <= Room(Suffix(number))
  {
    var max := Room(Suffix(number));
    if max > 0 {
      var f := Fit(TrimSpace(candidate), max);
      var l, r := TrimParts(f, IsSpace);
      ByteLenAppend(l + TrimSpace(f), r);
      ByteLenAppend(l, TrimSpace(f));
    }
  }

  // ------------------------------------------------------------ which title it is

  /** A text that is no list item, does not end with a period, and has nothing at its ends to be trimmed. */
  ghost predicate PlainCandidate(c: string) {
    && c != "" && Tight(c, IsSpace) && Clean(c)
    && c[0] != '-' && c[0] != '*' && c[0] != '\U{2022}' && !IsDigit(c[0]) && c[|c| - 1] != '.'
  }

  lemma PlainIsUnlisted(c: string)
    requires c != "" && c[0] != '-' && c[0] != '*' && c[0] != '\U{2022}' && !IsDigit(c[0])
    ensures Unlisted(c) == c
  {
  }

  lemma EndTaken(c: string, dot: string)
    requires PlainCandidate(c) && (dot == "" || dot == ".")
    ensures TrimSpace(TrimSuffix(TrimSpace(TrimSpace(c + dot)), ".")) == c
  {
    var text := c + dot;
    assert text[0] == c[0] && text[|text| - 1] == if dot == "" then c[|c| - 1] else '.';
    TrimTight(text, IsSpace);
    TrimTight(c, IsSpace);
    assert dot == "." ==> text[..|c|] == c && text[|c|..] == ".";
    assert dot == "" ==> text == c && text[|text| - 1..] == [c[|c| - 1]];
  }

  /** A plain text stays as it is, but for a period behind it. */
  lemma CleanedPlain(c: string, dot: string)
    requires PlainCandidate(c) && (dot == "" || dot == ".")
    ensures Cleaned(c + dot) == c
  {
    var text := c + dot;
    assert text[0] == c[0] && text[|text| - 1] == if dot == "" then c[|c| - 1] else '.';
    TrimTight(text, IsSpace);
    PlainIsUnlisted(text);
    EndTaken(c, dot);
  }

  /** The mark of a list item goes as well. */
  lemma CleanedBullet(mark: string, c: string, dot: string)
    requires PlainCandidate(c) && (dot == "" || dot == ".")
    requires mark == "- " || mark == "* " || mark == "\U{2022} "
    ensures Cleaned(mark + c + dot) == c
  {
    var title := mark + c + dot;
    assert title == mark + (c + dot);
    assert title[0] == mark[0] && title[|title| - 1] == if dot == "" then c[|c| - 1] else '.';
    TrimTight(title, IsSpace);
    BulletTaken(mark, c + dot, title);
    EndTaken(c, dot);
  }

  lemma BulletTaken(mark: string, more: string, title: string)
    requires (mark == "- " || mark == "* " || mark == "\U{2022} ") && title == mark + more
    ensures Unlisted(title) == more
  {
    assert title[..2] == mark && title[2..] == more;
  }

  lemma {:induction false} CountDigits(digits: string, rest: string)
    requires (forall i | 0 <= i < |digits| :: IsDigit(digits[i])) && (rest == "" || !IsDigit(rest[0]))
    ensures DigitCount(digits + rest) == |digits|
  {
    if digits == "" {
      assert digits + rest == rest;
    } else {
      assert (digits + rest)[1..] == digits[1..] + rest;
      CountDigits(digits[1..], rest);
    }
  }

  /** And so does its number. */
  lemma CleanedNumber(digits: string, mark: char, c: string, dot: string)
    requires PlainCandidate(c) && (dot == "" || dot == ".") && (mark == '.' || mark == ')')
    requires digits != "" && forall i | 0 <= i < |digits| :: IsDigit(digits[i])
    ensures Cleaned(digits + [mark] + " " + c + dot) == c
  {
    var title := digits + [mark] + " " + c + dot;
    assert title == digits + [mark] + " " + (c + dot);
    assert title[0] == digits[0] && title[|title| - 1] == if dot == "" then c[|c| - 1] else '.';
    TrimTight(title, IsSpace);
    NumberTaken(digits, mark, c + dot, title);
    EndTaken(c, dot);
  }

  lemma NumberTaken(digits: string, mark: char, more: string, title: string)
    requires (mark == '.' || mark == ')') && title == digits + [mark] + " " + more
    requires digits != "" && forall i | 0 <= i < |digits| :: IsDigit(digits[i])
    ensures Unlisted(title) == more
  {
    var rest := [mark] + " " + more;
    assert title == digits + rest;
    CountDigits(digits, rest);
    DigitFirst(title, |digits|);
    assert title[|digits|] == mark && title[|digits| + 1] == ' ' && title[|digits| + 2..] == more;
  }

  lemma DigitFirst(title: string, n: nat)
    requires 0 < n == DigitCount(title) && n + 1 < |title|
    ensures Unlisted(title)
         == if (title[n] == '.' || title[n] == ')') && IsSpace(title[n + 1]) then title[n + 2..] else title
  {
    assert IsDigit(title[0]);
  }

  /** The title of the first k characters of a candidate. */
  function TitleWith(c: string, k: nat, number: string): string
    requires k <= |c|
  {
    "Codex: " + TrimSpace(c[..k]) + " (#" + number + ")"
  }

  /** The first k characters leave room for what stands around them, and one more would not. */
  ghost predicate MostThatFits(c: string, k: nat, number: string) {
    && 0 < k <= |c|
    && |"Codex: "| + ByteLen(c[..k]) + |" (#"| + |number| + |")"| <= 120
    && (k < |c| ==> |"Codex: "| + ByteLen(c[..k + 1]) + |" (#"| + |number| + |")"| > 120)
  }

  lemma RoomLeft(number: string)
    requires IsNumber(number)
    ensures Room(Suffix(number)) == 120 - |"Codex: "| - |" (#"| - |number| - |")"| && Room(Suffix(number)) >= 4
  {
  }

  lemma OneCharacterFits(c: string, room: int)
    requires c != "" && room >= 4
    ensures Fit(c, room) != ""
  {
    FitIsLongest(c, room);
    ByteLenBounds(c[..1]);
  }

  lemma MostIsFit(c: string, number: string) returns (k: nat)
    requires PlainCandidate(c) && IsNumber(number)
    ensures MostThatFits(c, k, number) && Middle(c, number) == TrimSpace(c[..k])
  {
    var room := Room(Suffix(number));
    RoomLeft(number);
    TrimTight(c, IsSpace);
    OneCharacterFits(c, room);
    FitIsLongest(c, room);
    k := |Fit(c, room)|;
  }

  lemma FrontIsNotBlank(c: string, k: nat)
    requires c != "" && !IsSpace(c[0]) && 0 < k <= |c|
    ensures TrimSpace(c[..k]) != ""
  {
    BlankIsAllSpace(c[..k]);
    assert c[..k][0] == c[0];
  }

  lemma FrontIsClean(c: string, k: nat)
    requires Clean(c) && k <= |c|
    ensures Clean(TrimSpace(c[..k]))
  {
    assert Clean(c[..k]);
    CleanTrim(c[..k]);
  }

  lemma WithIsAssembled(c: string, k: nat, number: string)
    requires k <= |c|
    ensures TitleWith(c, k, number) == Assembled(TrimSpace(c[..k]), number)
  {
    assert PREFIX + TrimSpace(c[..k]) + (" (#" + number + ")") == "Codex: " + TrimSpace(c[..k]) + " (#" + number + ")";
  }

  /** The title of a plain candidate: as much of it as fits between the prefix and the number of the issue. */
  lemma PlainCandidateTitle(c: string, number: string, sensitive: string -> bool) returns (k: nat)
    requires PlainCandidate(c) && IsNumber(number)
    ensures MostThatFits(c, k, number)
    ensures TitleOf(c, number, sensitive)
         == if sensitive(TitleWith(c, k, number)) then None else Some(TitleWith(c, k, number))
  {
    k := MostIsFit(c, number);
    var middle := Middle(c, number);
    FrontIsNotBlank(c, k);
    FrontIsClean(c, k);
    WithIsAssembled(c, k, number);
    CleanTitle(middle, number, sensitive);
    MiddleFits(c, number);
    AssembledFits(middle, number, sensitive);
  }

  lemma CleanTitle(middle: string, number: string, sensitive: string -> bool)
    requires Clean(middle) && IsNumber(number)
    ensures TrimSpace(StripControl(Assembled(middle, number))) == Assembled(middle, number)
  {
    StripTitle(middle, number);
    StripClean(middle);
    AssembledEnds(middle, number);
    TrimTight(Assembled(middle, number), IsSpace);
  }

  lemma AssembledFits(middle: string, number: string, sensitive: string -> bool)
    requires IsNumber(number) && Clean(middle) && ByteLen(middle) <= Room(Suffix(number))
    requires TrimSpace(StripControl(Assembled(middle, number))) == Assembled(middle, number)
    ensures !sensitive(Assembled(middle, number)) ==>
              SafeTitleOf(Assembled(middle, number), sensitive) == Assembled(middle, number)
  {
    RoomIsEnough(middle, number);
    StripClean(middle);
  }

  predicate Untitled(candidate: string, number: string, sensitive: string -> bool) {
    TitleOf(Cleaned(candidate), number, sensitive).None?
  }

  lemma {:induction false} UntitledArePassed(candidates: seq<string>, k: nat, number: string, sensitive: string -> bool)
    requires k <= |candidates| && forall i | 0 <= i < k :: Untitled(candidates[i], number, sensitive)
    ensures FirstTitle(candidates, number, sensitive) == FirstTitle(candidates[k..], number, sensitive)
  {
    if k == 0 {
      assert candidates[0..] == candidates;
    } else {
      assert Untitled(candidates[0], number, sensitive);
      UntitledArePassed(candidates[1..], k - 1, number, sensitive);
      assert candidates[1..][k - 1..] == candidates[k..];
    }
  }

  /** The candidates are tried in order, and the first one that gives a title decides. */
  lemma FirstTitleDecides(candidates: seq<string>, k: nat, number: string, sensitive: string -> bool)
    requires k < |candidates| && forall i | 0 <= i < k :: Untitled(candidates[i], number, sensitive)
    requires !Untitled(candidates[k], number, sensitive)
    ensures FirstTitle(candidates, number, sensitive)
         == TitleOf(Cleaned(candidates[k]), number, sensitive).value
  {
    UntitledArePassed(candidates, k, number, sensitive);
    assert candidates[k..][0] == candidates[k];
  }

  /** Without one the title only names the issue. */
  lemma NoTitleDecides(candidates: seq<string>, number: string, sensitive: string -> bool)
    requires forall i | 0 <= i < |candidates| :: Untitled(candidates[i], number, sensitive)
    ensures FirstTitle(candidates, number, sensitive) == "Codex changes for issue #" + number
  {
    UntitledArePassed(candidates, |candidates|, number, sensitive);
  }

  /** A short plain summary in front is the title, word for word. */
  lemma ShortTitle(c: string, rest: seq<string>, number: string, sensitive: string -> bool)
    requires PlainCandidate(c) && IsNumber(number)
    requires |"Codex: "| + ByteLen(c) + |" (#"| + |number| + |")"| <= 120
    requires !sensitive("Codex: " + c + " (#" + number + ")")
    ensures FirstTitle([c] + rest, number, sensitive) == "Codex: " + c + " (#" + number + ")"
  {
    var k := PlainCandidateTitle(c, number, sensitive);
    AllOfIt(c, k, number);
    CleanedPlain(c, "");
    assert c + "" == c;
    FirstTitleDecides([c] + rest, 0, number, sensitive);
  }

  lemma AllOfIt(c: string, k: nat, number: string)
    requires PlainCandidate(c) && MostThatFits(c, k, number)
    requires |"Codex: "| + ByteLen(c) + |" (#"| + |number| + |")"| <= 120
    ensures k == |c| && TrimSpace(c[..k]) == c
  {
    assert c == c[..|c|];
    if k < |c| {
      assert c == c[..k + 1] + c[k + 1..];
      ByteLenAppend(c[..k + 1], c[k + 1..]);
    }
    TrimTight(c, IsSpace);
  }
}
