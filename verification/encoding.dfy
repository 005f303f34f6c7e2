/**
 * The two text encodings the identifier generator relies on: Go's
 * hex.EncodeToString (lower-case, two characters per byte) and
 * strconv.Itoa on non-negative numbers, each with a decoder that inverts it.
 */
module Encoding {

  newtype byte = x: int | 0 <= x < 256

  predicate IsDecimalDigit(c: char) {
    '0' <= c <= '9'
  }

  /** Characters hex.EncodeToString can produce. */
  predicate IsLowerHex(c: char) {
    IsDecimalDigit(c) || 'a' <= c <= 'f'
  }

  /** The digit of a nibble in the alphabet "0123456789abcdef". */
  function HexDigit(v: nat): (c: char)
    requires v < 16
    ensures IsLowerHex(c)
  {
    if v < 10 then ('0' as int + v) as char else ('a' as int + v - 10) as char
  }

  function HexValue(c: char): (v: nat)
    requires IsLowerHex(c)
    ensures v < 16 && HexDigit(v) == c
  {
    if IsDecimalDigit(c) then c as int - '0' as int else c as int - 'a' as int + 10
  }

  /** The two hex digits of one byte: its high nibble, then its low nibble. */
  function HexPair(b: byte): (s: string)
    ensures |s| == 2 && IsLowerHex(s[0]) && IsLowerHex(s[1])
  {
    [HexDigit(b as int / 16), HexDigit(b as int % 16)]
  }

  lemma HexPairRoundTrip(b: byte)
    ensures HexValue(HexPair(b)[0]) * 16 + HexValue(HexPair(b)[1]) == b as int
  {
    var hi, lo := b as int / 16, b as int % 16;
    assert HexValue(HexDigit(hi)) == hi && HexValue(HexDigit(lo)) == lo;
  }

  /** hex.EncodeToString: each byte becomes two lower-case hex digits. */
  function HexEncode(bytes: seq<byte>): (s: string)
    ensures |s| == 2 * |bytes|
  {
    if bytes == [] then "" else HexPair(bytes[0]) + HexEncode(bytes[1..])
  }

  /** hex.EncodeToString produces only lower-case hex digits. */
  predicate AllLowerHex(s: string) {
    forall i :: 0 <= i < |s| ==> IsLowerHex(s[i])
  }

  lemma {:induction false} HexEncodeIsLowerHex(bytes: seq<byte>)
    ensures AllLowerHex(HexEncode(bytes))
  {
    if bytes != [] {
      HexEncodeIsLowerHex(bytes[1..]);
      var p, rest := HexPair(bytes[0]), HexEncode(bytes[1..]);
      forall i | 0 <= i < |p + rest| ensures IsLowerHex((p + rest)[i]) {
        if i >= 2 { assert (p + rest)[i] == rest[i - 2]; }
      }
    }
  }

  /** The inverse of HexEncode, on strings of lower-case hex digit pairs. */
  function HexDecode(s: string): (bytes: seq<byte>)
    requires |s| % 2 == 0 && AllLowerHex(s)
    ensures 2 * |bytes| == |s|
  {
    if s == [] then []
    else [(HexValue(s[0]) * 16 + HexValue(s[1])) as byte] + HexDecode(s[2..])
  }

  lemma {:induction false} HexRoundTrip(bytes: seq<byte>)
    ensures AllLowerHex(HexEncode(bytes)) && HexDecode(HexEncode(bytes)) == bytes
  {
    if bytes != [] {
      HexRoundTrip(bytes[1..]);
      HexPairRoundTrip(bytes[0]);
      HexDecodeCons(HexPair(bytes[0]), HexEncode(bytes[1..]));
      assert [bytes[0]] + bytes[1..] == bytes;
    }
  }

  /** Decoding two hex digits in front of well-formed text yields their
      byte in front of the decoded text. */
  lemma HexDecodeCons(p: string, rest: string)
    requires |p| == 2 && IsLowerHex(p[0]) && IsLowerHex(p[1])
    requires |rest| % 2 == 0 && AllLowerHex(rest)
    ensures AllLowerHex(p + rest)
    ensures HexDecode(p + rest) == [(HexValue(p[0]) * 16 + HexValue(p[1])) as byte] + HexDecode(rest)
  {
    var s := p + rest;
    forall i | 0 <= i < |s| ensures IsLowerHex(s[i]) {
      if i >= 2 { assert s[i] == rest[i - 2]; }
    }
    assert s[2..] == rest;
  }

  /** Encoding is byte-by-byte, so it distributes over concatenation. */
  lemma {:induction false} HexEncodeAppend(a: seq<byte>, b: seq<byte>)
    ensures HexEncode(a + b) == HexEncode(a) + HexEncode(b)
  {
    if a != [] {
      assert (a + b)[1..] == a[1..] + b;
      HexEncodeAppend(a[1..], b);
    } else {
      assert a + b == b;
    }
  }

  /** The first 2k hex characters encode the first k bytes. */
  lemma HexEncodePrefix(bytes: seq<byte>, k: nat)
    requires k <= |bytes|
    ensures HexEncode(bytes)[..2 * k] == HexEncode(bytes[..k])
  {
    var a, b := bytes[..k], bytes[k..];
    assert bytes == a + b;
    HexEncodeAppend(a, b);
    var ha := HexEncode(a);
    assert HexEncode(bytes) == ha + HexEncode(b);
    assert |ha| == 2 * k;
    assert (ha + HexEncode(b))[..2 * k] == ha;
  }

  /** The last 2k hex characters encode the last k bytes. */
  lemma HexEncodeSuffix(bytes: seq<byte>, k: nat)
    requires k <= |bytes|
    ensures HexEncode(bytes)[2 * |bytes| - 2 * k..] == HexEncode(bytes[|bytes| - k..])
  {
    var j := |bytes| - k;
    var a, b := bytes[..j], bytes[j..];
    assert bytes == a + b;
    HexEncodeAppend(a, b);
    var hb := HexEncode(b);
    assert HexEncode(bytes) == HexEncode(a) + hb;
    assert |HexEncode(a)| == 2 * |bytes| - 2 * k;
    assert (HexEncode(a) + hb)[2 * |bytes| - 2 * k..] == hb;
  }

  function DigitChar(d: nat): (c: char)
    requires d < 10
    ensures IsDecimalDigit(c)
  {
    ('0' as int + d) as char
  }

  /** strconv.Itoa on a non-negative number: its shortest decimal form,
      with no sign and no leading zero. */
  function Itoa(n: nat): (s: string)
    ensures |s| >= 1
    ensures forall i :: 0 <= i < |s| ==> IsDecimalDigit(s[i])
    ensures s[0] == '0' ==> n == 0 && s == "0"
    decreases n
  {
    if n < 10 then [DigitChar(n)] else Itoa(n / 10) + [DigitChar(n % 10)]
  }

  function DigitValue(c: char): (d: nat)
    requires IsDecimalDigit(c)
    ensures d < 10 && DigitChar(d) == c
  {
    c as int - '0' as int
  }

  /** The value of a string of decimal digits (0 for the empty string). */
  function Atoi(s: string): nat
    requires forall i :: 0 <= i < |s| ==> IsDecimalDigit(s[i])
  {
    if s == [] then 0
    else Atoi(s[..|s| - 1]) * 10 + DigitValue(s[|s| - 1])
  }

  lemma {:induction false} AtoiItoa(n: nat)
    ensures Atoi(Itoa(n)) == n
    decreases n
  {
    if n >= 10 {
      var s := Itoa(n);
      assert s[..|s| - 1] == Itoa(n / 10);
      AtoiItoa(n / 10);
    }
  }

  /** A number below one hundred takes one decimal digit below ten and two
      from ten on. */
  lemma ItoaLengthBelowHundred(n: nat)
    requires n < 100
    ensures |Itoa(n)| == if n < 10 then 1 else 2
  {
    if n >= 10 {
      assert Itoa(n) == Itoa(n / 10) + [DigitChar(n % 10)];
    }
  }
}
