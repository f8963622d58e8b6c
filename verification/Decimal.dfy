/** Decimal numerals. */
module Decimal {

  const MAX_INT64: int := 0x7FFF_FFFF_FFFF_FFFF

  predicate IsDigit(c: char) {
    '0' <= c <= '9'
  }

  predicate AllDigits(s: string) {
    forall i | 0 <= i < |s| :: IsDigit(s[i])
  }

  function Digit(d: nat): (c: char)
    requires d < 10
    ensures IsDigit(c) && c as int - '0' as int == d
  {
    ('0' as int + d) as char
  }

  /** The decimal numeral of n, as "%d" prints it. */
  function Numeral(n: nat): (s: string)
    ensures s != [] && AllDigits(s)
  {
    if n < 10 then [Digit(n)] else Numeral(n / 10) + [Digit(n % 10)]
  }

  function Value(s: string): nat
    requires AllDigits(s)
  {
    if s == [] then 0 else Value(s[..|s| - 1]) * 10 + (s[|s| - 1] as int - '0' as int)
  }

  lemma {:induction false} ValueOfNumeral(n: nat)
    ensures Value(Numeral(n)) == n
  {
    var s := Numeral(n);
    if n < 10 {
      assert s[..0] == [];
    } else {
      ValueOfNumeral(n / 10);
      assert s[..|s| - 1] == Numeral(n / 10);
    }
  }

  lemma NumeralInjective(m: nat, n: nat)
    requires Numeral(m) == Numeral(n)
    ensures m == n
  {
    ValueOfNumeral(m);
    ValueOfNumeral(n);
  }

  function Pow10(k: nat): nat {
    if k == 0 then 1 else 10 * Pow10(k - 1)
  }

  lemma {:induction false} NumeralLength(n: nat, k: nat)
    requires k > 0 && n < Pow10(k)
    ensures |Numeral(n)| <= k
  {
    if n >= 10 {
      NumeralLength(n / 10, k - 1);
    }
  }

  lemma NineteenDigits()
    ensures Pow10(19) == 10_000_000_000_000_000_000
  {
    assert Pow10(4) == 10_000;
    assert Pow10(8) == 100_000_000;
    assert Pow10(12) == 1_000_000_000_000;
    assert Pow10(16) == 10_000_000_000_000_000;
  }

  /** No 64-bit magnitude takes more than 19 digits. */
  lemma Int64Digits(n: nat)
    requires n <= MAX_INT64 + 1
    ensures n < Pow10(19) && |Numeral(n)| <= 19
  {
    NineteenDigits();
    NumeralLength(n, 19);
  }

  /** What itoa prints: no digits at all for a negative number. */
  function Digits(n: int): string {
    if n >= 0 then Numeral(n) else ""
  }

  /** The digits of what is left; none for zero. */
  function Rest(m: nat): string {
    if m == 0 then "" else Numeral(m)
  }

  /** The digits that are still to be written, in front of those that are there. */
  ghost predicate Pending(n: nat, m: nat, room: nat, written: string) {
    m < Pow10(room) && Numeral(n) == Rest(m) + written
  }

  lemma TenthFits(m: nat, room: nat)
    requires 0 < m < Pow10(room)
    ensures room > 0 && m / 10 < Pow10(room - 1)
  {
  }

  lemma LastDigit(m: nat)
    requires m > 0
    ensures Rest(m) == Rest(m / 10) + [Digit(m % 10)]
  {
  }

  lemma MoveOver(a: string, d: char, written: string)
    ensures (a + [d]) + written == a + ([d] + written)
  {
  }

  lemma OneDigit(n: nat, m: nat, room: nat, written: string)
    requires Pending(n, m, room, written) && m > 0
    ensures room > 0 && Pending(n, m / 10, room - 1, [Digit(m % 10)] + written)
  {
    TenthFits(m, room);
    LastDigit(m);
    MoveOver(Rest(m / 10), Digit(m % 10), written);
  }

  /** One turn of the loop on the buffer. */
  method WriteDigit(b: array<char>, i: nat, d: nat)
    requires 0 < i <= b.Length && d < 10
    modifies b
    ensures b[i - 1..] == [Digit(d)] + old(b[i..])
  {
    b[i - 1] := Digit(d);
    assert b[i - 1..] == [b[i - 1]] + b[i..];
  }

  /** itoa: fills a 20-byte buffer from the right. */
  method Itoa(n: int) returns (s: string)
    requires n <= MAX_INT64
    ensures s == Digits(n)
  {
    if n == 0 {
      return "0";
    }
    var b := new char[20];
    var i, m := b.Length, n;
    if n > 0 {
      AllPending(n, b[i..]);
    }
    while m > 0
      invariant 1 <= i <= b.Length
      invariant n < 0 ==> m == n && i == b.Length
      invariant n > 0 ==> m >= 0 && Pending(n, m, i - 1, b[i..])
    {
      OneDigit(n, m, i - 1, b[i..]);
      WriteDigit(b, i, m % 10);
      i := i - 1;
      m := m / 10;
    }
    return b[i..];
  }

  lemma AllPending(n: nat, empty: string)
    requires 0 < n <= MAX_INT64 && empty == ""
    ensures Pending(n, n, 19, empty)
  {
    Int64Digits(n);
    assert Numeral(n) + "" == Numeral(n);
  }
}
