/** UTF-8 as the source's text encoder writes it, and that no two texts share an encoding. */
module Utf8 {
  import opened Basics

  function EncodeChar(c: char): (r: seq<Byte>)
    ensures r != []
  {
    var n := c as int;
    if n < 0x80 then [n]
    else if n < 0x800 then [0xC0 + n / 64, 0x80 + n % 64]
    else if n < 0x1_0000 then [0xE0 + n / 64 / 64, 0x80 + n / 64 % 64, 0x80 + n % 64]
    else [0xF0 + n / 64 / 64 / 64, 0x80 + n / 64 / 64 % 64, 0x80 + n / 64 % 64, 0x80 + n % 64]
  }

  predicate Continues(b: Byte) {
    0x80 <= b <= 0xBF
  }

  /** What a byte adds above its mark. */
  function Bits(b: Byte, mark: int): int {
    b as int - mark
  }

  /** The bytes carry the code point, six bits each after the first, in the shortest form (section 3 of RFC 3629). */
  lemma EncodesCodePoint(c: char)
    ensures var n, r := c as int, EncodeChar(c);
            || (n <= 0x7F && |r| == 1 && n == r[0])
            || (0x80 <= n <= 0x7FF && |r| == 2 && 0xC0 <= r[0] <= 0xDF && Continues(r[1]) && n == Bits(r[0], 0xC0) * 64 + Bits(r[1], 0x80))
            || (0x800 <= n <= 0xFFFF && |r| == 3 && 0xE0 <= r[0] <= 0xEF && Continues(r[1]) && Continues(r[2])
                && n == Bits(r[0], 0xE0) * 4096 + Bits(r[1], 0x80) * 64 + Bits(r[2], 0x80))
            || (0x1_0000 <= n <= 0x10_FFFF && |r| == 4 && 0xF0 <= r[0] <= 0xF4 && Continues(r[1]) && Continues(r[2]) && Continues(r[3])
                && n == Bits(r[0], 0xF0) * 262144 + Bits(r[1], 0x80) * 4096 + Bits(r[2], 0x80) * 64 + Bits(r[3], 0x80))
  {
    var n := c as int;
    assert n == n / 64 * 64 + n % 64;
    assert n / 64 == n / 64 / 64 * 64 + n / 64 % 64;
    assert n / 64 / 64 == n / 64 / 64 / 64 * 64 + n / 64 / 64 % 64;
  }

  function Encode(text: string): seq<Byte> {
    if text == "" then [] else EncodeChar(text[0]) + Encode(text[1..])
  }

  lemma SameBytesSameChar(c: char, d: char)
    requires EncodeChar(c) == EncodeChar(d)
    ensures c == d
  {
    var n, m, r, s := c as int, d as int, EncodeChar(c), EncodeChar(d);
    assert |r| == 1 ==> r[0] == s[0];
    assert |r| == 2 ==> r[0] == s[0] && r[1] == s[1];
    assert |r| == 3 ==> r[0] == s[0] && r[1] == s[1] && r[2] == s[2];
    assert |r| == 4 ==> r[0] == s[0] && r[1] == s[1] && r[2] == s[2] && r[3] == s[3];
    assert n == m;
  }

  /** The first byte fixes the length, so no character's bytes begin another's. */
  lemma CharPrefixFree(c: char, d: char, x: seq<Byte>, y: seq<Byte>)
    requires EncodeChar(c) + x == EncodeChar(d) + y
    ensures c == d && x == y
  {
    var r, s := EncodeChar(c), EncodeChar(d);
    assert r[0] == (r + x)[0] == (s + y)[0] == s[0];
    assert |r| == |s|;
    assert r == (r + x)[..|r|] == (s + y)[..|r|] == s;
    assert x == (r + x)[|r|..] == (s + y)[|r|..] == y;
    SameBytesSameChar(c, d);
  }

  lemma {:induction false} EncodeInjective(a: string, b: string)
    requires Encode(a) == Encode(b)
    ensures a == b
    decreases |a|
  {
    if a != "" && b != "" {
      CharPrefixFree(a[0], b[0], Encode(a[1..]), Encode(b[1..]));
      EncodeInjective(a[1..], b[1..]);
    }
  }

  lemma {:induction false} EncodeAppend(a: string, b: string)
    ensures Encode(a + b) == Encode(a) + Encode(b)
    decreases |a|
  {
    if a == "" {
      assert a + b == b;
    } else {
      EncodeAppend(a[1..], b);
      assert (a + b)[1..] == a[1..] + b;
    }
  }
}
