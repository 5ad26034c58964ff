/** Bytes, and UTF-8 as section 3 of RFC 3629 lays it out. */
module Bytes {

  type byte = x: int | 0 <= x < 256

  type Bytes = seq<byte>

  /** The one to four bytes of a code point. */
  function EncodeChar(c: char): (b: Bytes)
    ensures 1 <= |b| <= 4
    ensures c as int < 0x80 ==> b == [c as int]
    ensures c as int >= 0x80 ==> forall i :: 0 <= i < |b| ==> b[i] >= 0x80
  {
    var n := c as int;
    if n < 0x80 then [n]
    else if n < 0x800 then [0xC0 + n / 0x40, 0x80 + n % 0x40]
    else if n < 0x1_0000 then [0xE0 + n / 0x1000, 0x80 + n / 0x40 % 0x40, 0x80 + n % 0x40]
    else [0xF0 + n / 0x4_0000, 0x80 + n / 0x1000 % 0x40, 0x80 + n / 0x40 % 0x40, 0x80 + n % 0x40]
  }

  /** The code point is spread over the bytes six bits at a time, in the shortest form; the first byte tells how many. */
  lemma EncodedValue(c: char)
    ensures var n, b := c as int, EncodeChar(c);
      && (|b| == 1 <==> n < 0x80) && (|b| <= 2 <==> n < 0x800) && (|b| <= 3 <==> n < 0x1_0000)
      && (forall i :: 1 <= i < |b| ==> 0x80 <= b[i] < 0xC0)
      && (|b| == 1 ==> n == b[0])
      && (|b| == 2 ==> 0xC0 <= b[0] < 0xE0 && n == (b[0] as int - 0xC0) * 0x40 + (b[1] as int - 0x80))
      && (|b| == 3 ==>
            0xE0 <= b[0] < 0xF0
            && n == (b[0] as int - 0xE0) * 0x1000 + (b[1] as int - 0x80) * 0x40 + (b[2] as int - 0x80))
      && (|b| == 4 ==>
            0xF0 <= b[0] < 0xF5
            && n == (b[0] as int - 0xF0) * 0x4_0000 + (b[1] as int - 0x80) * 0x1000
                    + (b[2] as int - 0x80) * 0x40 + (b[3] as int - 0x80))
  {
    var n := c as int;
    var x, y, z := n / 0x40, n / 0x1000, n / 0x4_0000;
    assert n == x * 0x40 + n % 0x40 && x == y * 0x40 + x % 0x40 && y == z * 0x40 + y % 0x40;
  }

  function Encode(s: string): Bytes {
    if s == [] then [] else EncodeChar(s[0]) + Encode(s[1..])
  }

  lemma {:induction false} EncodeConcat(s: string, t: string)
    ensures Encode(s + t) == Encode(s) + Encode(t)
  {
    if s == [] {
      assert s + t == t;
    } else {
      assert (s + t)[1..] == s[1..] + t;
      EncodeConcat(s[1..], t);
    }
  }
}
