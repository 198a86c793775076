/**
 * Concrete byte and text encodings used at the boundaries of the key-wrap code:
 * lowercase hex output and Node's lenient hex input, the decimal spelling of
 * counter values inside ids, and the fixed-width big-endian encoding of the
 * ECDH shared secret before key derivation.
 */
module Encoding {
  import opened Wrappers

  newtype byte = x: int | 0 <= x < 256

  // ---------------------------------------------------------------- hex

  /** The lowercase digit for a nibble, as `toString('hex')` writes it. */
  function HexDigit(n: nat): (c: char)
    requires n < 16
    ensures IsLowerHexDigit(c)
  {
    if n < 10 then ('0' as int + n) as char else ('a' as int + n - 10) as char
  }

  predicate IsLowerHexDigit(c: char) {
    '0' <= c <= '9' || 'a' <= c <= 'f'
  }

  /** The value of one hex digit; Node accepts both letter cases. */
  function DigitValue(c: char): (r: Option<nat>)
    ensures r.Some? ==> r.value < 16
    ensures IsLowerHexDigit(c) ==> r.Some? && HexDigit(r.value) == c
    ensures 'A' <= c <= 'F' ==> r == Some(c as nat - 'A' as nat + 10)
    ensures !('0' <= c <= '9' || 'a' <= c <= 'f' || 'A' <= c <= 'F') ==> r.None?
  {
    if '0' <= c <= '9' then Some(c as nat - '0' as nat)
    else if 'a' <= c <= 'f' then Some(c as nat - 'a' as nat + 10)
    else if 'A' <= c <= 'F' then Some(c as nat - 'A' as nat + 10)
    else None
  }

  /** `buf.toString('hex')`: two lowercase digits per byte, high nibble first. */
  function ToHex(b: seq<byte>): (s: string)
    ensures |s| == 2 * |b|
    ensures forall i :: 0 <= i < |s| ==> IsLowerHexDigit(s[i])
  {
    if b == [] then ""
    else [HexDigit(b[0] as nat / 16), HexDigit(b[0] as nat % 16)] + ToHex(b[1..])
  }

  /**
   * `Buffer.from(s, 'hex')`: decodes digit pairs from the left and stops at the
   * first pair that is not two hex digits; a dangling last digit is dropped.
   */
  function FromHex(s: string): (b: seq<byte>)
    ensures |b| <= |s| / 2
  {
    if |s| < 2 then []
    else match (DigitValue(s[0]), DigitValue(s[1]))
      case (Some(hi), Some(lo)) => [(hi * 16 + lo) as byte] + FromHex(s[2..])
      case _ => []
  }

  predicate IsLowerHex(s: string) {
    |s| % 2 == 0 && forall i :: 0 <= i < |s| ==> IsLowerHexDigit(s[i])
  }

  /** Reading a written digit gives back its nibble. */
  lemma DigitRoundTrip(n: nat)
    requires n < 16
    ensures DigitValue(HexDigit(n)) == Some(n)
  {
  }

  /** A byte splits into a high and a low nibble that put it back together. */
  lemma Nibbles(x: byte)
    ensures x as nat / 16 < 16 && x as nat % 16 < 16
    ensures (x as nat / 16 * 16 + x as nat % 16) as byte == x
  {
  }

  /** Two nibbles make a byte whose nibbles are the two. */
  lemma FromNibbles(hi: nat, lo: nat)
    requires hi < 16 && lo < 16
    ensures 0 <= hi * 16 + lo < 256
    ensures ((hi * 16 + lo) as byte) as nat / 16 == hi && ((hi * 16 + lo) as byte) as nat % 16 == lo
  {
  }

  /** The two digits that start the hex spelling of a non-empty buffer, and the rest. */
  lemma ToHexCons(b: seq<byte>)
    requires b != []
    ensures ToHex(b) == [HexDigit(b[0] as nat / 16), HexDigit(b[0] as nat % 16)] + ToHex(b[1..])
  {
  }

  /** Decoding what was encoded gives back the bytes. */
  lemma {:induction false} FromHexToHex(b: seq<byte>)
    ensures FromHex(ToHex(b)) == b
  {
    if b != [] {
      var hi, lo := b[0] as nat / 16, b[0] as nat % 16;
      Nibbles(b[0]);
      var s := ToHex(b);
      ToHexCons(b);
      DigitRoundTrip(hi);
      DigitRoundTrip(lo);
      assert s[2..] == ToHex(b[1..]);
      FromHexToHex(b[1..]);
      assert FromHex(s) == [(hi * 16 + lo) as byte] + FromHex(s[2..]);
      assert b == [b[0]] + b[1..];
    }
  }

  /** Encoding what was decoded gives back any lowercase hex string of even length. */
  lemma {:induction false} ToHexFromHex(s: string)
    requires IsLowerHex(s)
    ensures ToHex(FromHex(s)) == s
  {
    if |s| >= 2 {
      var hi, lo := DigitValue(s[0]).value, DigitValue(s[1]).value;
      var x := (hi * 16 + lo) as byte;
      FromNibbles(hi, lo);
      var rest := s[2..];
      assert IsLowerHex(rest) by {
        assert forall i :: 0 <= i < |rest| ==> rest[i] == s[i + 2];
      }
      ToHexFromHex(rest);
      assert FromHex(s) == [x] + FromHex(rest);
      ToHexCons([x] + FromHex(rest));
      assert ([x] + FromHex(rest))[1..] == FromHex(rest);
      assert s == [s[0], s[1]] + rest;
    }
  }

  /** Two byte strings with the same hex spelling are equal. */
  lemma ToHexInjective(a: seq<byte>, b: seq<byte>)
    requires ToHex(a) == ToHex(b)
    ensures a == b
  {
    FromHexToHex(a);
    FromHexToHex(b);
  }

  // ---------------------------------------------------------------- decimal

  function DecimalDigit(n: nat): (c: char)
    requires n < 10
    ensures '0' <= c <= '9'
  {
    ('0' as int + n) as char
  }

  /** Decimal digits of a natural number, most significant first, no leading zeros. */
  function NatDigits(n: nat): (s: string)
    ensures |s| > 0 && '0' <= s[0] <= '9'
  {
    if n < 10 then [DecimalDigit(n)] else NatDigits(n / 10) + [DecimalDigit(n % 10)]
  }

  /** Every character of the spelling is a decimal digit. */
  lemma {:induction false} NatDigitsAreDigits(n: nat)
    ensures forall i :: 0 <= i < |NatDigits(n)| ==> '0' <= NatDigits(n)[i] <= '9'
  {
    if n >= 10 {
      NatDigitsAreDigits(n / 10);
      var s := NatDigits(n);
      assert s == NatDigits(n / 10) + [DecimalDigit(n % 10)];
    }
  }

  /** How JavaScript spells an integral Number when concatenated to a string. */
  function DecimalString(n: int): (s: string)
    ensures |s| > 0 && (s[0] == '-' <==> n < 0)
    ensures forall i :: (if n < 0 then 1 else 0) <= i < |s| ==> '0' <= s[i] <= '9'
  {
    NatDigitsAreDigits(if n < 0 then -n else n);
    if n < 0 then "-" + NatDigits(-n) else NatDigits(n)
  }

  /** Reads back a string of decimal digits. */
  function ParseDigits(s: string): nat
  {
    if s == [] then 0
    else ParseDigits(s[..|s| - 1]) * 10 + (if '0' <= s[|s| - 1] <= '9' then s[|s| - 1] as nat - '0' as nat else 0)
  }

  lemma {:induction false} ParseNatDigits(n: nat)
    ensures ParseDigits(NatDigits(n)) == n
  {
    if n >= 10 {
      var s := NatDigits(n);
      assert s[..|s| - 1] == NatDigits(n / 10);
      ParseNatDigits(n / 10);
    }
  }

  /** Different numbers are spelled differently, so `prefix + n` ids never collide. */
  lemma NatDigitsInjective(a: nat, b: nat)
    requires NatDigits(a) == NatDigits(b)
    ensures a == b
  {
    ParseNatDigits(a);
    ParseNatDigits(b);
  }

  lemma DecimalStringInjective(a: int, b: int)
    requires DecimalString(a) == DecimalString(b)
    ensures a == b
  {
    var sa, sb := DecimalString(a), DecimalString(b);
    assert sa[0] == '-' <==> a < 0;
    assert sb[0] == '-' <==> b < 0;
    if a < 0 && b < 0 {
      assert sa[1..] == NatDigits(-a);
      assert sb[1..] == NatDigits(-b);
      NatDigitsInjective(-a, -b);
    } else {
      NatDigitsInjective(a, b);
    }
  }

  lemma PrefixedIdInjective(prefix: string, a: int, b: int)
    requires prefix + DecimalString(a) == prefix + DecimalString(b)
    ensures a == b
  {
    assert (prefix + DecimalString(a))[|prefix|..] == DecimalString(a);
    assert (prefix + DecimalString(b))[|prefix|..] == DecimalString(b);
    DecimalStringInjective(a, b);
  }

  // ---------------------------------------------------------------- big-endian

  function Pow256(width: nat): (p: nat)
    ensures p > 0
  {
    if width == 0 then 1 else 256 * Pow256(width - 1)
  }

  /** The value of a big-endian byte string. */
  function FromBigEndian(b: seq<byte>): (x: nat)
    ensures x < Pow256(|b|)
  {
    if b == [] then 0 else FromBigEndian(b[..|b| - 1]) * 256 + b[|b| - 1] as nat
  }

  /**
   * `bn.toArray('be', width)`: exactly `width` bytes, left-padded with zeros;
   * throws when the number does not fit. The KEK derivation calls it with width 32.
   */
  function ToBigEndian(x: nat, width: nat): (r: Option<seq<byte>>)
    ensures r.Some? <==> x < Pow256(width)
    ensures r.Some? ==> |r.value| == width && FromBigEndian(r.value) == x
  {
    if x < Pow256(width) then BigEndianRoundTrip(x, width); Some(BigEndianBytes(x, width)) else None
  }

  function BigEndianBytes(x: nat, width: nat): (b: seq<byte>)
    requires x < Pow256(width)
    ensures |b| == width
  {
    if width == 0 then [] else BigEndianBytes(x / 256, width - 1) + [(x % 256) as byte]
  }

  /** The encoding is exact: reading the bytes back yields the number. */
  lemma {:induction false} BigEndianRoundTrip(x: nat, width: nat)
    requires x < Pow256(width)
    ensures FromBigEndian(BigEndianBytes(x, width)) == x
  {
    if width > 0 {
      var b := BigEndianBytes(x, width);
      assert b[..|b| - 1] == BigEndianBytes(x / 256, width - 1);
      BigEndianRoundTrip(x / 256, width - 1);
    }
  }

  function Zeros(n: nat): (z: seq<byte>)
    ensures |z| == n && forall i :: 0 <= i < n ==> z[i] == 0
  {
    if n == 0 then [] else Zeros(n - 1) + [0]
  }

  /** A number that fits in `k` bytes is left-padded with zero bytes up to `width`. */
  lemma {:induction false} BigEndianLeftPadded(x: nat, k: nat, width: nat)
    requires k <= width && x < Pow256(k)
    ensures x < Pow256(width)
    ensures BigEndianBytes(x, width) == Zeros(width - k) + BigEndianBytes(x, k)
  {
    if width > k {
      BigEndianLeftPadded(x, k, width - 1);
      if k == 0 {
        assert x == 0;
        assert BigEndianBytes(0, width) == BigEndianBytes(0, width - 1) + [0];
      } else {
        assert x / 256 < Pow256(k - 1);
        BigEndianLeftPadded(x / 256, k - 1, width - 1);
        assert BigEndianBytes(x, width) == Zeros(width - k) + BigEndianBytes(x / 256, k - 1) + [(x % 256) as byte];
      }
    }
  }
}
