/** UTF-8 (RFC 3629): the encoding of text, and where it may be cut. */
module Utf8 {

  newtype byte = b: int | 0 <= b < 256

  /** Section 3 of RFC 3629: the octets of one character. */
  function Encode(c: char): (bytes: seq<byte>)
    ensures |bytes| == Width(c) && RuneStart(bytes[0])
    ensures forall i | 0 < i < |bytes| :: !RuneStart(bytes[i])
    ensures |bytes| == 1 <==> bytes[0] < 0x80
    ensures |bytes| == 1 ==> bytes[0] as int == c as int
    ensures |bytes| == LeadWidth(bytes[0])
  {
    var n := c as int;
    if n < 0x80 then [n as byte]
    else if n < 0x800 then [(0xC0 + n / 0x40) as byte, Tail(n)]
    else if n < 0x1_0000 then [(0xE0 + n / 0x1000) as byte, Tail(n / 0x40), Tail(n)]
    else [(0xF0 + n / 0x4_0000) as byte, Tail(n / 0x1000), Tail(n / 0x40), Tail(n)]
  }

  function Tail(n: nat): (b: byte)
    ensures 0x80 <= b < 0xC0
  {
    (0x80 + n % 0x40) as byte
  }

  function Width(c: char): (n: nat)
    ensures 1 <= n <= 4
  {
    if c as int < 0x80 then 1 else if c as int < 0x800 then 2 else if c as int < 0x1_0000 then 3 else 4
  }

  /** utf8.RuneStart */
  predicate RuneStart(b: byte) {
    b < 0x80 || b >= 0xC0
  }

  /** The size utf8.DecodeRune reads off the first byte of a character. */
  function LeadWidth(b: byte): (n: nat)
    ensures 1 <= n <= 4
  {
    if b < 0xC0 then 1 else if b < 0xE0 then 2 else if b < 0xF0 then 3 else 4
  }

  function EncodeText(s: string): (bytes: seq<byte>)
    ensures |bytes| == ByteLen(s)
  {
    if s == [] then [] else Encode(s[0]) + EncodeText(s[1..])
  }

  /** len of the Go string. */
  function ByteLen(s: string): nat {
    if s == [] then 0 else Width(s[0]) + ByteLen(s[1..])
  }

  ghost predicate Valid(bytes: seq<byte>) {
    exists s: string :: EncodeText(s) == bytes
  }

  lemma {:induction false} ByteLenAppend(a: string, b: string)
    ensures ByteLen(a + b) == ByteLen(a) + ByteLen(b)
  {
    if a == [] {
      assert a + b == b;
    } else {
      assert (a + b)[1..] == a[1..] + b;
      ByteLenAppend(a[1..], b);
    }
  }

  /** Every character takes between one and four bytes. */
  lemma {:induction false} ByteLenBounds(s: string)
    ensures |s| <= ByteLen(s) <= 4 * |s|
  {
    if s != [] {
      ByteLenBounds(s[1..]);
    }
  }

  lemma {:induction false} ByteLenAscii(s: string)
    requires forall i | 0 <= i < |s| :: s[i] as int < 0x80
    ensures ByteLen(s) == |s|
  {
    if s != [] {
      ByteLenAscii(s[1..]);
    }
  }

  ghost predicate Boundary(bytes: seq<byte>, k: int) {
    0 <= k <= |bytes| && (k < |bytes| ==> RuneStart(bytes[k]))
  }

  lemma FirstBytes(s: string)
    requires s != ""
    ensures |Encode(s[0])| <= |EncodeText(s)|
    ensures EncodeText(s)[..|Encode(s[0])|] == Encode(s[0])
    ensures EncodeText(s)[|Encode(s[0])|..] == EncodeText(s[1..])
  {
  }

  /** A boundary behind the start lies behind the first character. */
  lemma BehindFirst(s: string, k: nat)
    requires s != "" && k > 0 && Boundary(EncodeText(s), k)
    ensures k >= |Encode(s[0])| && Boundary(EncodeText(s[1..]), k - |Encode(s[0])|)
  {
    BehindPart(Encode(s[0]), EncodeText(s[1..]), k);
  }

  lemma BehindPart(first: seq<byte>, rest: seq<byte>, k: nat)
    requires first != [] && forall j | 0 < j < |first| :: !RuneStart(first[j])
    requires k > 0 && Boundary(first + rest, k)
    ensures k >= |first| && Boundary(rest, k - |first|)
  {
    forall j | 0 < j < |first|
      ensures !RuneStart((first + rest)[j])
    {
      assert (first + rest)[j] == first[j];
    }
    assert |first| <= k < |first + rest| ==> (first + rest)[k] == rest[k - |first|];
  }

  lemma PrependBytes(first: seq<byte>, rest: seq<byte>, k: nat)
    requires |first| <= k <= |first| + |rest|
    ensures (first + rest)[..k] == first + rest[..k - |first|]
    ensures (first + rest)[k..] == rest[k - |first|..]
  {
  }

  /** A position that starts a character, or is the end, cuts the text between two characters. */
  lemma {:induction false} CutAtBoundary(s: string, k: nat) returns (i: nat)
    requires Boundary(EncodeText(s), k)
    ensures i <= |s|
    ensures EncodeText(s[..i]) == EncodeText(s)[..k]
    ensures EncodeText(s[i..]) == EncodeText(s)[k..]
  {
    if k == 0 {
      i := 0;
      assert s[0..] == s;
    } else {
      BehindFirst(s, k);
      var j := CutAtBoundary(s[1..], k - |Encode(s[0])|);
      i := j + 1;
      PrependBytes(Encode(s[0]), EncodeText(s[1..]), k);
      assert s[..i][1..] == s[1..][..j] && s[i..] == s[1..][j..];
    }
  }

  /** Among four successive bytes one starts a character. */
  lemma {:induction false} StartWithinFour(s: string, k: nat) returns (j: nat)
    requires k + 4 <= |EncodeText(s)|
    ensures k <= j < k + 4 && RuneStart(EncodeText(s)[j])
  {
    var first := Encode(s[0]);
    if k == 0 {
      j := 0;
    } else if k < |first| {
      var rest := EncodeText(s[1..]);
      assert rest != [] && EncodeText(s)[|first|] == rest[0];
      assert rest[0] == Encode(s[1])[0];
      j := |first|;
    } else {
      var i := StartWithinFour(s[1..], k - |first|);
      j := i + |first|;
    }
  }

  lemma {:induction false} AfterAscii(s: string, k: nat)
    requires k < |EncodeText(s)| && EncodeText(s)[k] < 0x80
    ensures Boundary(EncodeText(s), k + 1)
  {
    var first := Encode(s[0]);
    if k < |first| {
      assert k == 0 && |first| == 1;
      if s[1..] != [] {
        assert EncodeText(s)[1] == Encode(s[1])[0];
      }
    } else {
      AfterAscii(s[1..], k - |first|);
    }
  }

  lemma StartsWithBoundary(s: string)
    ensures Boundary(EncodeText(s), 0)
    ensures s != [] ==> EncodeText(s) != [] && LeadWidth(EncodeText(s)[0]) == Width(s[0]) <= |EncodeText(s)|
    ensures s != [] ==> Boundary(EncodeText(s), Width(s[0]))
  {
    if s != [] && s[1..] != [] {
      assert EncodeText(s)[Width(s[0])] == Encode(s[1])[0];
    }
  }
}
