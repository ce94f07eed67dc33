/** Lower-case hexadecimal encoding of byte strings (Go's `hex.EncodeToString`),
    used by the default trace-ID generator on a SHA-256 digest. */
module Hex {

  type byte = b: int | 0 <= b < 256

  /** A SHA-256 digest: exactly 32 bytes. The hash itself is a parameter of
      the model, never computed. */
  type Digest = d: seq<byte> | |d| == 32 witness seq(32, _ => 0)

  predicate IsHexDigit(c: char)
  {
    '0' <= c <= '9' || 'a' <= c <= 'f'
  }

  function Digit(v: int): (c: char)
    requires 0 <= v < 16
    ensures IsHexDigit(c)
  {
    if v < 10 then ('0' as int + v) as char else ('a' as int + v - 10) as char
  }

  function DigitValue(c: char): int
  {
    if '0' <= c <= '9' then c as int - '0' as int else c as int - 'a' as int + 10
  }

  /** Two characters per byte, high nibble first. */
  function Encode(bs: seq<byte>): (s: string)
    ensures |s| == 2 * |bs|
    ensures forall i :: 0 <= i < |s| ==> IsHexDigit(s[i])
  {
    if bs == [] then "" else [Digit(bs[0] / 16), Digit(bs[0] % 16)] + Encode(bs[1..])
  }

  /** Different byte strings never share an encoding. */
  lemma {:induction false} EncodeInjective(a: seq<byte>, b: seq<byte>)
    requires Encode(a) == Encode(b)
    ensures a == b
    decreases |a|
  {
    if a != [] {
      var ea, eb := Encode(a), Encode(b);
      assert DigitValue(ea[0]) == a[0] / 16 && DigitValue(ea[1]) == a[0] % 16;
      assert DigitValue(eb[0]) == b[0] / 16 && DigitValue(eb[1]) == b[0] % 16;
      assert a[0] == b[0];
      assert Encode(a[1..]) == ea[2..] == eb[2..] == Encode(b[1..]);
      EncodeInjective(a[1..], b[1..]);
    }
  }
}
