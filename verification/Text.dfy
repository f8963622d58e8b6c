/** String operations of the Go standard library, on text as a sequence of characters.
    A Go string that is not valid UTF-8 is represented by its rune-by-rune decoding.
    Whitespace is ASCII whitespace. */
module Text {

  datatype Option<+T> = None | Some(value: T)

  predicate IsSpace(c: char) {
    c == ' ' || '\t' <= c <= '\r'
  }

  predicate IsBlankChar(c: char) {
    c == ' ' || c == '\t'
  }

  predicate IsDash(c: char) {
    c == '-'
  }

  ghost predicate All(s: string, p: char -> bool) {
    forall i | 0 <= i < |s| :: p(s[i])
  }

  // ---------------------------------------------------------------- trimming

  function TrimLeft(s: string, cut: char -> bool): (r: string)
    ensures |r| <= |s|
    ensures r != [] ==> !cut(r[0])
  {
    if s != [] && cut(s[0]) then TrimLeft(s[1..], cut) else s
  }

  function TrimRight(s: string, cut: char -> bool): (r: string)
    ensures |r| <= |s|
    ensures r != [] ==> !cut(r[|r| - 1])
  {
    if s != [] && cut(s[|s| - 1]) then TrimRight(s[..|s| - 1], cut) else s
  }

  lemma {:induction false} TrimLeftCuts(s: string, cut: char -> bool)
    ensures var n := |s| - |TrimLeft(s, cut)|;
            TrimLeft(s, cut) == s[n..] && All(s[..n], cut)
  {
    if s != [] && cut(s[0]) {
      TrimLeftCuts(s[1..], cut);
      var n := |s| - |TrimLeft(s, cut)|;
      assert s[1..][n - 1..] == s[n..];
      assert forall i | 1 <= i < n :: s[..n][i] == s[1..][..n - 1][i - 1];
    }
  }

  lemma {:induction false} TrimRightCuts(s: string, cut: char -> bool)
    ensures var n := |TrimRight(s, cut)|;
            TrimRight(s, cut) == s[..n] && All(s[n..], cut)
  {
    if s != [] && cut(s[|s| - 1]) {
      TrimRightCuts(s[..|s| - 1], cut);
      var n := |TrimRight(s, cut)|;
      assert s[..|s| - 1][..n] == s[..n];
      assert forall i | 0 <= i < |s| - 1 - n :: s[n..][i] == s[..|s| - 1][n..][i];
    }
  }

  function Trim(s: string, cut: char -> bool): string {
    TrimRight(TrimLeft(s, cut), cut)
  }

  function TrimSpace(s: string): string {
    Trim(s, IsSpace)
  }

  predicate Blank(s: string) {
    TrimSpace(s) == ""
  }

  /** Nothing to trim at either end. */
  ghost predicate Tight(s: string, cut: char -> bool) {
    s == "" || (!cut(s[0]) && !cut(s[|s| - 1]))
  }

  lemma {:induction false} TrimLeftUnique(l: string, m: string, cut: char -> bool)
    requires All(l, cut) && (m == "" || !cut(m[0]))
    ensures TrimLeft(l + m, cut) == m
  {
    if l == "" {
      assert l + m == m;
    } else {
      assert (l + m)[0] == l[0] && (l + m)[1..] == l[1..] + m;
      TrimLeftUnique(l[1..], m, cut);
    }
  }

  lemma {:induction false} TrimRightUnique(m: string, r: string, cut: char -> bool)
    requires All(r, cut) && (m == "" || !cut(m[|m| - 1]))
    ensures TrimRight(m + r, cut) == m
  {
    if r == "" {
      assert m + r == m;
    } else {
      var last := |r| - 1;
      assert (m + r)[|m + r| - 1] == r[last] && (m + r)[..|m + r| - 1] == m + r[..last];
      TrimRightUnique(m, r[..last], cut);
    }
  }

  lemma TrimUnique(l: string, m: string, r: string, cut: char -> bool)
    requires All(l, cut) && All(r, cut) && Tight(m, cut)
    ensures Trim(l + m + r, cut) == m
  {
    if m == "" {
      assert l + m + r == (l + r) + "";
      TrimLeftUnique(l + r, "", cut);
    } else {
      assert l + m + r == l + (m + r);
      TrimLeftUnique(l, m + r, cut);
      TrimRightUnique(m, r, cut);
    }
  }

  /** What trimming removes, and that what is left is tight. */
  lemma TrimFirstStays(s: string, cut: char -> bool)
    requires s == "" || !cut(s[0])
    ensures TrimRight(s, cut) == "" || !cut(TrimRight(s, cut)[0])
  {
    TrimRightCuts(s, cut);
  }

  lemma TrimParts(s: string, cut: char -> bool) returns (l: string, r: string)
    ensures s == l + Trim(s, cut) + r && All(l, cut) && All(r, cut) && Tight(Trim(s, cut), cut)
  {
    var m := TrimLeft(s, cut);
    l := LeftPart(s, cut);
    r := RightPart(m, cut);
    TrimFirstStays(m, cut);
    Regroup(l, TrimRight(m, cut), r);
  }

  lemma LeftPart(s: string, cut: char -> bool) returns (l: string)
    ensures s == l + TrimLeft(s, cut) && All(l, cut)
  {
    TrimLeftCuts(s, cut);
    l := s[..|s| - |TrimLeft(s, cut)|];
  }

  lemma RightPart(s: string, cut: char -> bool) returns (r: string)
    ensures s == TrimRight(s, cut) + r && All(r, cut)
  {
    TrimRightCuts(s, cut);
    r := s[|TrimRight(s, cut)|..];
  }

  lemma Regroup<T>(a: seq<T>, b: seq<T>, c: seq<T>)
    ensures a + (b + c) == a + b + c
  {
  }

  lemma LastSplit<T>(s: seq<T>)
    requires s != []
    ensures s == s[..|s| - 1] + [s[|s| - 1]]
  {
  }

  lemma TrimTight(s: string, cut: char -> bool)
    requires Tight(s, cut)
    ensures Trim(s, cut) == s
  {
    assert [] + s + [] == s;
    TrimUnique([], s, [], cut);
  }

  lemma TrimIdempotent(s: string, cut: char -> bool)
    ensures Trim(Trim(s, cut), cut) == Trim(s, cut)
  {
    var _, _ := TrimParts(s, cut);
    TrimTight(Trim(s, cut), cut);
  }

  lemma TrimPaddedParts(l: string, a: string, m: string, b: string, r: string, cut: char -> bool)
    requires All(l, cut) && All(a, cut) && All(b, cut) && All(r, cut) && Tight(m, cut)
    ensures Trim(l + (a + m + b) + r, cut) == m
  {
    assert l + (a + m + b) + r == (l + a) + m + (b + r);
    TrimUnique(l + a, m, b + r, cut);
  }

  lemma TrimPadded(l: string, s: string, r: string, cut: char -> bool)
    requires All(l, cut) && All(r, cut)
    ensures Trim(l + s + r, cut) == Trim(s, cut)
  {
    var a, b := TrimParts(s, cut);
    TrimPaddedParts(l, a, Trim(s, cut), b, r, cut);
  }

  lemma BlankIsAllSpace(s: string)
    ensures Blank(s) <==> All(s, IsSpace)
  {
    if All(s, IsSpace) {
      assert s == s + [] + [];
      TrimUnique(s, [], [], IsSpace);
    }
    if Blank(s) {
      var l, r := TrimParts(s, IsSpace);
      assert s == l + r;
    }
  }

  // ---------------------------------------------------- splitting and joining

  /** strings.Split on a one-character separator. */
  function Split(s: string, sep: char): (parts: seq<string>)
    ensures parts != []
    ensures forall i | 0 <= i < |parts| :: sep !in parts[i]
  {
    if s == [] then [[]]
    else if s[0] == sep then [[]] + Split(s[1..], sep)
    else
      var rest := Split(s[1..], sep);
      [[s[0]] + rest[0]] + rest[1..]
  }

  /** strings.Join. */
  function Join(parts: seq<string>, sep: string): string {
    if |parts| == 0 then ""
    else if |parts| == 1 then parts[0]
    else parts[0] + sep + Join(parts[1..], sep)
  }

  lemma {:induction false} JoinAppend(a: seq<string>, b: seq<string>, sep: string)
    requires a != [] && b != []
    ensures Join(a + b, sep) == Join(a, sep) + sep + Join(b, sep)
  {
    if |a| == 1 {
      assert (a + b)[1..] == b;
    } else {
      assert (a + b)[0] == a[0] && (a + b)[1..] == a[1..] + b;
      JoinAppend(a[1..], b, sep);
    }
  }

  lemma {:induction false} SplitJoin(s: string, sep: char)
    ensures Join(Split(s, sep), [sep]) == s
  {
    if s != [] {
      SplitJoin(s[1..], sep);
      var rest := Split(s[1..], sep);
      if s[0] == sep {
        assert Split(s, sep)[1..] == rest;
      } else {
        var parts := Split(s, sep);
        assert parts[1..] == rest[1..];
        if |rest| > 1 {
          assert Join(parts, [sep]) == [s[0]] + (rest[0] + [sep] + Join(rest[1..], [sep]));
        }
      }
    }
  }

  lemma {:induction false} SplitNone(s: string, sep: char)
    requires sep !in s
    ensures Split(s, sep) == [s]
  {
    if s != [] {
      SplitNone(s[1..], sep);
      assert [s[0]] + s[1..] == s;
    }
  }

  lemma SplitHead(c: char, s: string, sep: char)
    ensures Split([c] + s, sep)
         == if c == sep then [[]] + Split(s, sep) else [[c] + Split(s, sep)[0]] + Split(s, sep)[1..]
  {
    assert ([c] + s)[1..] == s;
  }

  lemma FirstOfBoth(a: seq<string>, b: seq<string>, c: char)
    requires a != []
    ensures [[c] + (a + b)[0]] + (a + b)[1..] == ([[c] + a[0]] + a[1..]) + b
  {
    assert (a + b)[1..] == a[1..] + b;
  }

  lemma {:induction false} SplitAppend(a: string, b: string, sep: char)
    ensures Split(a + [sep] + b, sep) == Split(a, sep) + Split(b, sep)
  {
    if a == [] {
      assert a + [sep] + b == [sep] + b;
      SplitHead(sep, b, sep);
    } else {
      assert a + [sep] + b == [a[0]] + (a[1..] + [sep] + b);
      SplitAppend(a[1..], b, sep);
      SplitHead(a[0], a[1..] + [sep] + b, sep);
      FirstOfBoth(Split(a[1..], sep), Split(b, sep), a[0]);
    }
  }

  lemma {:induction false} JoinSplit(parts: seq<string>, sep: char)
    requires parts != [] && forall i | 0 <= i < |parts| :: sep !in parts[i]
    ensures Split(Join(parts, [sep]), sep) == parts
  {
    if |parts| == 1 {
      SplitNone(parts[0], sep);
    } else {
      JoinSplit(parts[1..], sep);
      SplitNone(parts[0], sep);
      SplitAppend(parts[0], Join(parts[1..], [sep]), sep);
    }
  }

  /** strings.Fields: the maximal runs of non-space characters. */
  function Fields(s: string): (words: seq<string>)
    decreases |s|
  {
    var t := TrimLeft(s, IsSpace);
    if t == [] then []
    else
      var n := WordLength(t);
      [t[..n]] + Fields(t[n..])
  }

  function WordLength(s: string): (n: nat)
    ensures n <= |s|
    ensures forall i | 0 <= i < n :: !IsSpace(s[i])
    ensures n < |s| ==> IsSpace(s[n])
    ensures s != [] && !IsSpace(s[0]) ==> n > 0
  {
    if s == [] || IsSpace(s[0]) then 0 else 1 + WordLength(s[1..])
  }

  ghost predicate IsWord(s: string) {
    s != [] && forall i | 0 <= i < |s| :: !IsSpace(s[i])
  }

  /** A word that is followed by a blank, or by nothing, is the first field. */
  lemma FirstField(word: string, rest: string)
    requires IsWord(word) && (rest == "" || rest[0] == ' ')
    ensures Fields(word + rest) == [word] + Fields(rest)
  {
    var s := word + rest;
    assert TrimLeft(s, IsSpace) == s;
    assert forall i | 0 <= i < |word| :: s[i] == word[i];
    assert rest != "" ==> s[|word|] == ' ';
    assert WordLength(s) == |word|;
    assert s[..|word|] == word && s[|word|..] == rest;
  }

  lemma BlankBefore(s: string)
    ensures Fields(" " + s) == Fields(s)
  {
    assert (" " + s)[1..] == s;
  }

  ghost predicate AllWords(words: seq<string>) {
    forall i | 0 <= i < |words| :: IsWord(words[i])
  }

  lemma {:induction false} FieldsAreWords(s: string)
    ensures AllWords(Fields(s))
    decreases |s|
  {
    var t := TrimLeft(s, IsSpace);
    if t != [] {
      FieldsAreWords(t[WordLength(t)..]);
      assert IsWord(t[..WordLength(t)]);
    }
  }

  lemma {:induction false} FieldsJoin(words: seq<string>)
    requires AllWords(words)
    ensures Fields(Join(words, " ")) == words
  {
    if |words| == 1 {
      FirstField(words[0], "");
      assert words[0] + "" == words[0];
    } else if |words| > 1 {
      FieldsJoin(words[1..]);
      NextField(words[0], Join(words[1..], " "));
      assert words == [words[0]] + words[1..];
    }
  }

  lemma NextField(word: string, s: string)
    requires IsWord(word)
    ensures Fields(word + " " + s) == [word] + Fields(s)
  {
    Regroup(word, " ", s);
    FirstField(word, " " + s);
    BlankBefore(s);
  }

  // ------------------------------------------------------ searching, replacing

  predicate HasPrefix(s: string, prefix: string) {
    prefix <= s
  }

  predicate HasSuffix(s: string, suffix: string) {
    |suffix| <= |s| && s[|s| - |suffix|..] == suffix
  }

  predicate Contains(s: string, sub: string) {
    HasPrefix(s, sub) || (s != [] && Contains(s[1..], sub))
  }

  function TrimSuffix(s: string, suffix: string): string {
    if HasSuffix(s, suffix) then s[..|s| - |suffix|] else s
  }

  /** strings.ReplaceAll for a non-empty old text. */
  function ReplaceAll(s: string, old_: string, new_: string): string
    requires old_ != []
  {
    if s == [] then []
    else if HasPrefix(s, old_) then new_ + ReplaceAll(s[|old_|..], old_, new_)
    else [s[0]] + ReplaceAll(s[1..], old_, new_)
  }

  /** strings.Replace with a count of one. */
  function ReplaceFirst(s: string, old_: string, new_: string): string
    requires old_ != []
  {
    if s == [] then []
    else if HasPrefix(s, old_) then new_ + s[|old_|..]
    else [s[0]] + ReplaceFirst(s[1..], old_, new_)
  }

  lemma PrefixParts(s: string, prefix: string)
    ensures HasPrefix(s, prefix) <==> |prefix| <= |s| && s == prefix + s[|prefix|..]
  {
    if HasPrefix(s, prefix) {
      assert s[..|prefix|] == prefix && s == s[..|prefix|] + s[|prefix|..];
    }
  }

  /** The text is somewhere in it. */
  lemma {:induction false} ContainedSomewhere(s: string, sub: string) returns (a: string, b: string)
    requires Contains(s, sub)
    ensures s == a + sub + b
  {
    if HasPrefix(s, sub) {
      a, b := "", s[|sub|..];
      PrefixParts(s, sub);
      assert "" + sub + b == sub + b;
    } else {
      a, b := ContainedSomewhere(s[1..], sub);
      assert s == [s[0]] + s[1..] && [s[0]] + (a + sub + b) == [s[0]] + a + sub + b;
      a := [s[0]] + a;
    }
  }

  lemma {:induction false} SomewhereContained(a: string, sub: string, b: string)
    ensures Contains(a + sub + b, sub)
  {
    if a == "" {
      PrefixParts(a + sub + b, sub);
      assert a + sub + b == sub + b;
    } else {
      SomewhereContained(a[1..], sub, b);
      assert (a + sub + b)[1..] == a[1..] + sub + b;
    }
  }

  /** Replacing changes nothing where there is nothing to replace. */
  lemma {:induction false} NothingReplaced(s: string, old_: string, new_: string)
    requires old_ != [] && !Contains(s, old_)
    ensures ReplaceFirst(s, old_, new_) == s
  {
    if s != [] {
      NothingReplaced(s[1..], old_, new_);
    }
  }

  /** Only the first occurrence is replaced: no other one begins before it. */
  lemma {:induction false} FirstReplaced(a: string, old_: string, b: string, new_: string)
    requires old_ != [] && forall i | 0 <= i < |a| :: !HasPrefix((a + old_ + b)[i..], old_)
    ensures ReplaceFirst(a + old_ + b, old_, new_) == a + new_ + b
  {
    var s := a + old_ + b;
    if a == "" {
      assert s == old_ + b && s[|old_|..] == b && "" + new_ + b == new_ + b;
      PrefixParts(s, old_);
    } else {
      assert s[0..] == s && !HasPrefix(s[0..], old_);
      assert s[1..] == a[1..] + old_ + b;
      forall i | 0 <= i < |a[1..]|
        ensures !HasPrefix((a[1..] + old_ + b)[i..], old_)
      {
        assert s[i + 1..] == s[1..][i..];
      }
      FirstReplaced(a[1..], old_, b, new_);
    }
  }

  /** strings.ToLower. Beyond ASCII only the two characters whose lower case is an ASCII letter
      are mapped; no test in these modules can tell the other letters apart. */
  function LowerChar(c: char): char {
    if 'A' <= c <= 'Z' then (c as int + 32) as char
    else if c == '\U{130}' then 'i'
    else if c == '\U{212A}' then 'k'
    else c
  }

  function ToLower(s: string): (r: string)
    ensures |r| == |s|
    ensures forall i | 0 <= i < |s| :: r[i] == LowerChar(s[i])
  {
    seq(|s|, i requires 0 <= i < |s| => LowerChar(s[i]))
  }

  // ------------------------------------------------------------ control characters

  predicate IsControl(c: char) {
    c != '\n' && c != '\r' && c != '\t' && (c < ' ' || c == '\U{7F}')
  }

  function StripControl(s: string): (r: string)
    ensures forall i | 0 <= i < |r| :: !IsControl(r[i])
  {
    if s == [] then []
    else if IsControl(s[0]) then StripControl(s[1..])
    else [s[0]] + StripControl(s[1..])
  }

  ghost predicate Clean(s: string) {
    forall i | 0 <= i < |s| :: !IsControl(s[i])
  }

  lemma {:induction false} StripAppend(a: string, b: string)
    ensures StripControl(a + b) == StripControl(a) + StripControl(b)
  {
    if a == [] {
      assert a + b == b;
    } else {
      assert (a + b)[1..] == a[1..] + b;
      StripAppend(a[1..], b);
    }
  }

  lemma {:induction false} StripClean(s: string)
    requires Clean(s)
    ensures StripControl(s) == s
  {
    if s != [] {
      StripClean(s[1..]);
    }
  }

  /** Places in a list of n, in order. */
  ghost predicate Ascends(at: seq<nat>, n: nat) {
    && (forall k | 0 <= k < |at| :: at[k] < n)
    && (forall j, k | 0 <= j < k < |at| :: at[j] < at[k])
  }

  /** The text r is what is left of s, in order, when its control characters are taken out: those below the
      blank but for tab, newline and carriage return, and delete. */
  ghost predicate Uncontrolled(s: string, r: string, at: seq<nat>) {
    && Ascends(at, |s|) && |at| == |r|
    && (forall k | 0 <= k < |r| :: r[k] == s[at[k]])
    && (forall i | 0 <= i < |s| :: i in at <==>
          s[i] as int == 9 || s[i] as int == 10 || s[i] as int == 13 || (s[i] as int >= 32 && s[i] as int != 127))
  }

  lemma AscendsMore(at: seq<nat>, n: nat)
    requires Ascends(at, n)
    ensures Ascends(at + [n], n + 1) && Ascends(at, n + 1)
  {
  }

  lemma {:induction false} StripIsUncontrolled(s: string) returns (at: seq<nat>)
    ensures Uncontrolled(s, StripControl(s), at)
  {
    at := [];
    if s != "" {
      var front, last := s[..|s| - 1], s[|s| - 1];
      at := StripIsUncontrolled(front);
      AscendsMore(at, |front|);
      LastSplit(s);
      StripAppend(front, [last]);
      assert StripControl([last]) == if IsControl(last) then [] else [last];
      if !IsControl(last) {
        at := at + [|front|];
      }
    }
  }

  /** Only one text is left. */
  lemma {:induction false} UncontrolledIsStrip(s: string, r: string, at: seq<nat>)
    requires Uncontrolled(s, r, at)
    ensures r == StripControl(s)
  {
    if s == "" {
    } else {
      var front, last := s[..|s| - 1], s[|s| - 1];
      LastSplit(s);
      StripAppend(front, [last]);
      assert StripControl([last]) == if IsControl(last) then [] else [last];
      if IsControl(last) {
        NoLastPlace(s, r, at);
        UncontrolledIsStrip(front, r, at);
      } else {
        LastPlace(at, |front|);
        DropLastPlace(s, r, at);
        UncontrolledIsStrip(front, r[..|r| - 1], at[..|at| - 1]);
        LastSplit(r);
      }
    }
  }

  lemma NoLastPlace(s: string, r: string, at: seq<nat>)
    requires s != "" && Uncontrolled(s, r, at) && IsControl(s[|s| - 1])
    ensures Uncontrolled(s[..|s| - 1], r, at)
  {
    var front := s[..|s| - 1];
    assert |front| !in at;
    assert forall k | 0 <= k < |at| :: at[k] in at;
  }

  lemma LastPlace(at: seq<nat>, n: nat)
    requires Ascends(at, n + 1) && n in at
    ensures at[|at| - 1] == n
  {
    var k :| 0 <= k < |at| && at[k] == n;
    if k < |at| - 1 {
      assert at[k] < at[|at| - 1];
    }
  }

  lemma DropLastPlace(s: string, r: string, at: seq<nat>)
    requires s != "" && Uncontrolled(s, r, at) && at != [] && at[|at| - 1] == |s| - 1
    ensures Uncontrolled(s[..|s| - 1], r[..|r| - 1], at[..|at| - 1])
  {
    var front, places := s[..|s| - 1], at[..|at| - 1];
    LastSplit(at);
    forall i | 0 <= i < |front|
      ensures i in places <==> i in at
    {
      assert i in at <==> i in places || i == |s| - 1;
    }
    assert forall k | 0 <= k < |places| :: at[k] < at[|at| - 1];
  }

  lemma CleanTrim(s: string)
    requires Clean(s)
    ensures Clean(TrimSpace(s))
  {
    var l, r := TrimParts(s, IsSpace);
    var t := TrimSpace(s);
    assert forall i | 0 <= i < |t| :: t[i] == s[|l| + i];
  }
}
