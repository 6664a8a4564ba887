/** Upper-case hexadecimal rendering of a digest, two characters per byte, as the
    `{0:X2}` format produces them. */
module HexFormat {
  import opened DownloadTypes

  predicate IsHexChar(c: char) {
    '0' <= c <= '9' || 'A' <= c <= 'F'
  }

  /** The upper-case digit for a nibble. */
  function HexDigit(n: int): (c: char)
    requires 0 <= n < 16
    ensures IsHexChar(c)
    ensures n < 10 ==> c == '0' + (n as char)
    ensures 10 <= n ==> c == 'A' + ((n - 10) as char)
  {
    if n < 10 then ('0' as int + n) as char else ('A' as int + n - 10) as char
  }

  /** The nibble a hex digit stands for; the inverse of HexDigit. */
  function DigitValue(c: char): (n: int)
    requires IsHexChar(c)
    ensures 0 <= n < 16 && HexDigit(n) == c
  {
    if c <= '9' then c as int - '0' as int else c as int - 'A' as int + 10
  }

  lemma DigitValueOfHexDigit(n: int)
    requires 0 <= n < 16
    ensures DigitValue(HexDigit(n)) == n
  {
  }

  /** A byte as two upper-case hex digits: the high nibble, then the low nibble. */
  function X2(b: byte): (s: string)
    ensures |s| == 2 && IsHexChar(s[0]) && IsHexChar(s[1])
    ensures DigitValue(s[0]) * 16 + DigitValue(s[1]) == b as int
  {
    DigitValueOfHexDigit(b as int / 16);
    DigitValueOfHexDigit(b as int % 16);
    [HexDigit(b as int / 16), HexDigit(b as int % 16)]
  }

  /** The string HashToString accumulates: each byte's X2 appended in order. */
  function Hex(bytes: seq<byte>): (s: string)
    ensures |s| == 2 * |bytes|
  {
    if |bytes| == 0 then "" else Hex(bytes[..|bytes| - 1]) + X2(bytes[|bytes| - 1])
  }

  /** Characters 2i and 2i+1 of the rendering are the high and low nibble of byte i. */
  lemma {:induction false} HexAt(bytes: seq<byte>, i: int)
    requires 0 <= i < |bytes|
    ensures Hex(bytes)[2 * i] == HexDigit(bytes[i] as int / 16)
    ensures Hex(bytes)[2 * i + 1] == HexDigit(bytes[i] as int % 16)
  {
    var init := bytes[..|bytes| - 1];
    if i < |bytes| - 1 {
      HexAt(init, i);
      assert init[i] == bytes[i];
    }
  }

  /** Every character of the rendering is one of 0-9, A-F. */
  lemma HexChars(bytes: seq<byte>)
    ensures forall k :: 0 <= k < |Hex(bytes)| ==> IsHexChar(Hex(bytes)[k])
  {
    forall k | 0 <= k < |Hex(bytes)|
      ensures IsHexChar(Hex(bytes)[k])
    {
      HexAt(bytes, k / 2);
      assert k == 2 * (k / 2) || k == 2 * (k / 2) + 1;
    }
  }

  predicate IsHexString(s: string) {
    |s| % 2 == 0 && forall k :: 0 <= k < |s| ==> IsHexChar(s[k])
  }

  /** Reads a digest back from its rendering: each pair of digits is one byte. */
  function Unhex(s: string): (bytes: seq<byte>)
    requires IsHexString(s)
    ensures |bytes| * 2 == |s|
  {
    seq(|s| / 2, i requires 0 <= i < |s| / 2 =>
      (DigitValue(s[2 * i]) * 16 + DigitValue(s[2 * i + 1])) as byte)
  }

  /** Decoding the rendering gives back the digest bytes. */
  lemma HexRoundTrip(bytes: seq<byte>)
    ensures IsHexString(Hex(bytes))
    ensures Unhex(Hex(bytes)) == bytes
  {
    HexChars(bytes);
    var s := Hex(bytes);
    forall i | 0 <= i < |bytes|
      ensures Unhex(s)[i] == bytes[i]
    {
      HexAt(bytes, i);
      DigitValueOfHexDigit(bytes[i] as int / 16);
      DigitValueOfHexDigit(bytes[i] as int % 16);
    }
  }

  /** Two digests with the same rendering are equal. */
  lemma HexInjective(a: seq<byte>, b: seq<byte>)
    requires Hex(a) == Hex(b)
    ensures a == b
  {
    HexRoundTrip(a);
    HexRoundTrip(b);
  }
}
