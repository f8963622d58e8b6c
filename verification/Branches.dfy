/** Branch names: the check shared by internal/commands and internal/sandbox, and the default name. */
module Branches {
  import opened Text
  import opened Utf8
  import Decimal

  /** The characters for which unicode.IsLower or unicode.IsDigit holds. */
  type LowerDigit = char -> bool

  predicate AsciiLowerDigit(c: char) {
    'a' <= c <= 'z' || '0' <= c <= '9'
  }

  /** What the model needs of the Unicode tables. */
  ghost predicate Tables(p: LowerDigit) {
    forall c: char | c as int < 0x80 :: p(c) <==> AsciiLowerDigit(c)
  }

  predicate BranchChar(c: char, p: LowerDigit) {
    p(c) || c == '-' || c == '/'
  }

  predicate SafeBranch(s: string, p: LowerDigit) {
    && 0 < ByteLen(s) <= 80 && !HasPrefix(s, "/") && !HasSuffix(s, "/") && !Contains(s, "..")
    && forall i | 0 <= i < |s| :: BranchChar(s[i], p)
  }

  lemma SafeBranchIsWord(s: string, p: LowerDigit)
    requires Tables(p) && SafeBranch(s, p)
    ensures IsWord(s)
  {
    assert forall i | 0 <= i < |s| :: BranchChar(s[i], p);
  }

  function Dashed(c: char, p: LowerDigit): char {
    if p(c) || c == '-' then c else '-'
  }

  function DashedAll(s: string, p: LowerDigit): string {
    if s == [] then [] else DashedAll(s[..|s| - 1], p) + [Dashed(s[|s| - 1], p)]
  }

  function BranchPart(s: string, p: LowerDigit): string {
    Trim(DashedAll(s, p), IsDash)
  }

  method SanitizeBranchPart(s: string, p: LowerDigit) returns (part: string)
    ensures part == BranchPart(s, p)
  {
    var b := "";
    for i := 0 to |s|
      invariant b == DashedAll(s[..i], p)
    {
      assert s[..i + 1][..i] == s[..i];
      if p(s[i]) || s[i] == '-' {
        b := b + [s[i]];
      } else {
        b := b + "-";
      }
    }
    assert s[..|s|] == s;
    return Trim(b, IsDash);
  }

  /** "%d" of any integer. */
  function Signed(n: int): (s: string)
    ensures s != []
  {
    if n < 0 then "-" + Decimal.Numeral(-n) else Decimal.Numeral(n)
  }

  function DefaultBranch(issue: int, delivery: string, p: LowerDigit): string {
    "codex/issue-" + Signed(issue) + "-" + BranchPart(delivery, p)
  }

  /** None when the requested branch is refused. */
  function Chosen(issue: int, delivery: string, requested: string, p: LowerDigit): Option<string> {
    if requested == "" then Some(DefaultBranch(issue, delivery, p))
    else if SafeBranch(requested, p) then Some(requested) else None
  }

  // --------------------------------------------------------- the default name

  ghost predicate PartChars(s: string, p: LowerDigit) {
    forall i | 0 <= i < |s| :: p(s[i]) || s[i] == '-'
  }

  lemma {:induction false} DashedChars(s: string, p: LowerDigit)
    ensures PartChars(DashedAll(s, p), p)
  {
    if s != [] {
      DashedChars(s[..|s| - 1], p);
    }
  }

  lemma PartIsClean(s: string, p: LowerDigit)
    ensures PartChars(BranchPart(s, p), p)
  {
    DashedChars(s, p);
    var d := DashedAll(s, p);
    var l, r := TrimParts(d, IsDash);
    var t := BranchPart(s, p);
    assert forall i | 0 <= i < |t| :: t[i] == d[|l| + i];
  }

  lemma SignedChars(n: int, p: LowerDigit)
    requires Tables(p)
    ensures PartChars(Signed(n), p)
  {
  }

  lemma {:induction false} NoDots(s: string, p: LowerDigit)
    requires Tables(p) && forall i | 0 <= i < |s| :: BranchChar(s[i], p)
    ensures !Contains(s, "..")
  {
    if s != [] {
      assert BranchChar(s[0], p);
      NoDots(s[1..], p);
    }
  }

  /** What keeps every other clause of the check: a tail without a slash behind the fixed head. */
  lemma HeadAndTail(tail: string, p: LowerDigit)
    requires Tables(p) && PartChars(tail, p) && tail != ""
    ensures SafeBranch("codex/issue-" + tail, p) <==> ByteLen("codex/issue-" + tail) <= 80
  {
    var s := "codex/issue-" + tail;
    assert forall i | 0 <= i < |s| :: BranchChar(s[i], p) by {
      assert forall i | 12 <= i < |s| :: s[i] == tail[i - 12];
    }
    NoDots(s, p);
    ByteLenBounds(s);
    assert s[|s| - 1] == tail[|tail| - 1] && tail[|tail| - 1] != '/';
  }

  /** The default branch passes the check exactly when it takes at most 80 bytes. */
  lemma DefaultBranchSafe(issue: int, delivery: string, p: LowerDigit)
    requires Tables(p)
    ensures SafeBranch(DefaultBranch(issue, delivery, p), p) <==> ByteLen(DefaultBranch(issue, delivery, p)) <= 80
  {
    var number, part := Signed(issue), BranchPart(delivery, p);
    var tail := number + "-" + part;
    SignedChars(issue, p);
    PartIsClean(delivery, p);
    assert PartChars(tail, p);
    HeadAndTail(tail, p);
    assert DefaultBranch(issue, delivery, p) == "codex/issue-" + tail;
  }

  lemma {:induction false} DashedBytes(s: string, p: LowerDigit)
    ensures ByteLen(DashedAll(s, p)) <= ByteLen(s)
  {
    if s != [] {
      var front, last := s[..|s| - 1], s[|s| - 1];
      DashedBytes(front, p);
      ByteLenAppend(DashedAll(front, p), [Dashed(last, p)]);
      ByteLenAppend(front, [last]);
      assert s == front + [last];
      OneBytes(Dashed(last, p));
      OneBytes(last);
    }
  }

  lemma OneBytes(c: char)
    ensures ByteLen([c]) == Width(c)
  {
    assert [c][1..] == [];
  }

  lemma PartBytes(s: string, p: LowerDigit)
    ensures ByteLen(BranchPart(s, p)) <= ByteLen(s)
  {
    DashedBytes(s, p);
    var d := DashedAll(s, p);
    var l, r := TrimParts(d, IsDash);
    ByteLenAppend(l + BranchPart(s, p), r);
    ByteLenAppend(l, BranchPart(s, p));
  }

  lemma BytesOfParts(head: string, number: string, part: string)
    ensures ByteLen(head + number + "-" + part) == ByteLen(head) + ByteLen(number) + 1 + ByteLen(part)
  {
    ByteLenAppend(head + number + "-", part);
    ByteLenAppend(head + number, "-");
    ByteLenAppend(head, number);
    OneBytes('-');
  }

  lemma SignedBytes(n: int)
    requires -Decimal.MAX_INT64 - 1 <= n <= Decimal.MAX_INT64
    ensures ByteLen(Signed(n)) <= 20
  {
    Decimal.Int64Digits(if n < 0 then -n else n);
    ByteLenAscii(Signed(n));
  }

  lemma ShortTail(head: string, issue: int, delivery: string, p: LowerDigit)
    requires -Decimal.MAX_INT64 - 1 <= issue <= Decimal.MAX_INT64
    requires ByteLen(head) == 12 && ByteLen(delivery) <= 47
    ensures ByteLen(head + Signed(issue) + "-" + BranchPart(delivery, p)) <= 80
  {
    SignedBytes(issue);
    PartBytes(delivery, p);
    BytesOfParts(head, Signed(issue), BranchPart(delivery, p));
  }

  lemma HeadBytes(head: string)
    requires head == "codex/issue-"
    ensures ByteLen(head) == 12
  {
    ByteLenAscii(head);
  }

  lemma ShortDefault(head: string, issue: int, delivery: string, p: LowerDigit)
    requires head == "codex/issue-"
    requires -Decimal.MAX_INT64 - 1 <= issue <= Decimal.MAX_INT64 && ByteLen(delivery) <= 47
    ensures ByteLen(head + Signed(issue) + "-" + BranchPart(delivery, p)) <= 80
  {
    HeadBytes(head);
    ShortTail(head, issue, delivery, p);
  }

  lemma DefaultIsShort(issue: int, delivery: string, p: LowerDigit)
    requires -Decimal.MAX_INT64 - 1 <= issue <= Decimal.MAX_INT64 && ByteLen(delivery) <= 47
    ensures ByteLen(DefaultBranch(issue, delivery, p)) <= 80
  {
    ShortDefault("codex/issue-", issue, delivery, p);
  }

  /** A delivery id of up to 47 bytes always makes a branch that passes, whatever the 64-bit issue number. */
  lemma ShortDeliveryIsSafe(issue: int, delivery: string, p: LowerDigit)
    requires Tables(p) && -Decimal.MAX_INT64 - 1 <= issue <= Decimal.MAX_INT64 && ByteLen(delivery) <= 47
    ensures SafeBranch(DefaultBranch(issue, delivery, p), p)
  {
    DefaultIsShort(issue, delivery, p);
    DefaultBranchSafe(issue, delivery, p);
  }

  /** A request is refused exactly when it is unsafe; a safe one is used as it is; and whatever comes out
      passes the check of the checkout, unless it is a default that takes more than 80 bytes. */
  method WorkBranch(issue: int, delivery: string, requested: string, p: LowerDigit) returns (branch: Option<string>)
    ensures branch == Chosen(issue, delivery, requested, p)
    ensures branch.None? <==> requested != "" && !SafeBranch(requested, p)
    ensures requested != "" && branch.Some? ==> branch.value == requested
    ensures Tables(p) && branch.Some? ==>
              (SafeBranch(branch.value, p) <==> requested != "" || ByteLen(branch.value) <= 80)
  {
    if requested != "" {
      if !SafeBranch(requested, p) {
        return None;
      }
      return Some(requested);
    }
    var part := SanitizeBranchPart(delivery, p);
    branch := Some("codex/issue-" + Signed(issue) + "-" + part);
    if Tables(p) {
      DefaultBranchSafe(issue, delivery, p);
    }
  }

  // ---------------------------------------------------- what is left of a delivery id

  /** Letters, digits and dashes stay, and every other character becomes a dash. */
  lemma {:induction false} DashedEach(s: string, p: LowerDigit)
    ensures |DashedAll(s, p)| == |s|
    ensures forall i | 0 <= i < |s| :: DashedAll(s, p)[i] == if p(s[i]) || s[i] == '-' then s[i] else '-'
  {
    if s != [] {
      DashedEach(s[..|s| - 1], p);
    }
  }

  /** Lower-case letters, digits, and dashes between them: an id as GitHub makes them. */
  ghost predicate PlainId(id: string, p: LowerDigit) {
    Tight(id, IsDash) && forall i | 0 <= i < |id| :: p(id[i]) || id[i] == '-'
  }

  lemma PlainIdStays(id: string, p: LowerDigit)
    requires PlainId(id, p)
    ensures BranchPart(id, p) == id
  {
    DashedEach(id, p);
    assert DashedAll(id, p) == id;
    TrimTight(id, IsDash);
  }

  /** The default branch of a plain id spells the issue and the id. */
  lemma PlainDefault(issue: nat, id: string, p: LowerDigit)
    requires PlainId(id, p)
    ensures DefaultBranch(issue, id, p) == "codex/issue-" + (Decimal.Numeral(issue) + ("-" + id))
  {
    PlainIdStays(id, p);
    var number := Decimal.Numeral(issue);
    assert "codex/issue-" + number + "-" + id == "codex/issue-" + (number + ("-" + id));
  }

  lemma HeadCancels(head: string, a: string, b: string)
    requires head + a == head + b
    ensures a == b
  {
    assert a == (head + a)[|head|..] && b == (head + b)[|head|..];
  }

  /** What stands before the first dash can be told from what stands behind it. */
  lemma FirstDash(a: string, x: string, b: string, y: string)
    requires a + ("-" + x) == b + ("-" + y) && '-' !in a && '-' !in b
    ensures a == b && x == y
  {
    var s, t := a + ("-" + x), b + ("-" + y);
    assert s[|a|] == '-' && t[|b|] == '-';
    assert forall i | 0 <= i < |a| :: s[i] == a[i];
    assert forall i | 0 <= i < |b| :: t[i] == b[i];
    assert |a| == |b|;
    assert a == s[..|a|] && b == t[..|b|] && x == s[|a| + 1..] && y == t[|b| + 1..];
  }

  lemma NumeralHasNoDash(n: nat)
    ensures '-' !in Decimal.Numeral(n)
  {
    assert Decimal.AllDigits(Decimal.Numeral(n));
  }

  /** Two deliveries never get the same default branch, nor do two issues. */
  lemma DefaultBranchesDiffer(issue: nat, id: string, other: nat, otherId: string, p: LowerDigit)
    requires PlainId(id, p) && PlainId(otherId, p)
    requires DefaultBranch(issue, id, p) == DefaultBranch(other, otherId, p)
    ensures issue == other && id == otherId
  {
    PlainDefault(issue, id, p);
    PlainDefault(other, otherId, p);
    var a, b := Decimal.Numeral(issue), Decimal.Numeral(other);
    HeadCancels("codex/issue-", a + ("-" + id), b + ("-" + otherId));
    NumeralHasNoDash(issue);
    NumeralHasNoDash(other);
    FirstDash(a, id, b, otherId);
    Decimal.ValueOfNumeral(issue);
    Decimal.ValueOfNumeral(other);
  }

  /** A branch may have 1 to 80 bytes of lower-case letters, digits, dashes and slashes, without a slash at
      either end; with that, the check for ".." refuses nothing more. */
  lemma SafeBranchExactly(s: string, p: LowerDigit)
    requires Tables(p)
    ensures SafeBranch(s, p)
       <==> && 0 < ByteLen(s) <= 80 && s != "" && s[0] != '/' && s[|s| - 1] != '/'
            && forall i | 0 <= i < |s| :: p(s[i]) || s[i] == '-' || s[i] == '/'
  {
    if s != "" {
      assert HasPrefix(s, "/") <==> s[0] == '/';
      assert HasSuffix(s, "/") <==> s[|s| - 1] == '/';
    }
    if forall i | 0 <= i < |s| :: p(s[i]) || s[i] == '-' || s[i] == '/' {
      NoDots(s, p);
    }
    assert SafeBranch(s, p) ==> forall i | 0 <= i < |s| :: BranchChar(s[i], p);
  }
}
