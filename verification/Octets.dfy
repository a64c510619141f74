/** Bytes, and their hexadecimal text. */
module Octets {
  type Byte = n: nat | n < 256
  type Bytes = seq<Byte>

  predicate HexChar(c: char) {
    '0' <= c <= '9' || 'a' <= c <= 'f'
  }

  predicate AllHex(s: string) {
    forall i | 0 <= i < |s| :: HexChar(s[i])
  }

  function HexValue(c: char): (n: nat)
    requires HexChar(c)
    ensures n < 16
  {
    if c <= '9' then (c - '0') as nat else (c - 'a') as nat + 10
  }

  function HexDigit(n: nat): (c: char)
    requires n < 16
    ensures HexChar(c)
  {
    if n < 10 then '0' + n as char else 'a' + (n - 10) as char
  }

  lemma DigitRoundTrip(c: char)
    requires HexChar(c)
    ensures HexDigit(HexValue(c)) == c
  {
  }

  lemma PairRoundTrip(c: char, d: char)
    requires HexChar(c) && HexChar(d)
    ensures var b := 16 * HexValue(c) + HexValue(d); b < 256 && HexDigit(b / 16) == c && HexDigit(b % 16) == d
  {
    DigitRoundTrip(c);
    DigitRoundTrip(d);
  }

  lemma ValueRoundTrip(n: nat)
    requires n < 16
    ensures HexValue(HexDigit(n)) == n
  {
  }

  /** `bytes.fromhex` on lower-case hexadecimal text of even length. */
  function FromHex(s: string): (b: Bytes)
    requires |s| % 2 == 0 && AllHex(s)
    ensures |b| == |s| / 2
  {
    if s == [] then [] else [16 * HexValue(s[0]) + HexValue(s[1])] + FromHex(s[2..])
  }

  /** `bytes.hex()`. */
  function ToHex(b: Bytes): (s: string)
    ensures |s| == 2 * |b| && AllHex(s)
  {
    if b == [] then [] else [HexDigit(b[0] / 16), HexDigit(b[0] % 16)] + ToHex(b[1..])
  }

  /** A digest survives being stored as bytes and rendered as text. */
  lemma {:induction false} HexRoundTrip(s: string)
    requires |s| % 2 == 0 && AllHex(s)
    ensures ToHex(FromHex(s)) == s
  {
    if s != [] {
      HexRoundTrip(s[2..]);
      PairRoundTrip(s[0], s[1]);
      assert FromHex(s)[1..] == FromHex(s[2..]);
      assert s == [s[0], s[1]] + s[2..];
    }
  }

  /** Different bytes have different texts. */
  lemma {:induction false} BytesRoundTrip(b: Bytes)
    ensures FromHex(ToHex(b)) == b
  {
    if b != [] {
      BytesRoundTrip(b[1..]);
      ValueRoundTrip(b[0] / 16);
      ValueRoundTrip(b[0] % 16);
      assert ToHex(b)[2..] == ToHex(b[1..]);
    }
  }
}
