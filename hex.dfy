/** Node's `Buffer` hex conversions, as the contract handler uses them:
    `toString('hex')` writes two lower-case digits per byte, and
    `Buffer.from(s, 'hex')` reads digit pairs and stops at the first pair
    that is not hexadecimal (an odd trailing digit is dropped). */
module Hex {
  import opened Common

  function Digit(n: nat): (c: char)
    requires n < 16
  {
    if n < 10 then (48 + n) as char else (87 + n) as char
  }

  /** The value of a hexadecimal digit in either case. */
  function DigitValue(c: char): (r: Option<nat>)
    ensures r.Some? ==> r.value < 16
  {
    if '0' <= c <= '9' then Some(c as int - 48)
    else if 'a' <= c <= 'f' then Some(c as int - 87)
    else if 'A' <= c <= 'F' then Some(c as int - 55)
    else None
  }

  /** `buffer.toString('hex')`. */
  function ToHex(b: bytes): (s: string)
    ensures |s| == 2 * |b|
  {
    if b == [] then [] else [Digit(b[0] / 16), Digit(b[0] % 16)] + ToHex(b[1..])
  }

  /** `Buffer.from(s, 'hex')`: decodes leading digit pairs up to the first
      pair that is not hexadecimal. */
  function FromHex(s: string): (b: bytes)
    ensures |b| <= |s| / 2
  {
    if |s| < 2 then []
    else
      match (DigitValue(s[0]), DigitValue(s[1]))
      case (Some(hi), Some(lo)) => [hi * 16 + lo] + FromHex(s[2..])
      case _ => []
  }

  /** A string `toString('hex')` can produce: even length, lower-case digits. */
  predicate IsLowerHex(s: string)
  {
    |s| % 2 == 0 && forall i :: 0 <= i < |s| ==> ('0' <= s[i] <= '9' || 'a' <= s[i] <= 'f')
  }

  lemma DigitRoundTrip(n: nat)
    requires n < 16
    ensures DigitValue(Digit(n)) == Some(n)
  {
  }

  /** Decoding what was encoded gives the bytes back. */
  lemma {:induction false} FromHexToHex(b: bytes)
    ensures FromHex(ToHex(b)) == b
  {
    if b != [] {
      var s := ToHex(b);
      DigitRoundTrip(b[0] / 16);
      DigitRoundTrip(b[0] % 16);
      assert s[2..] == ToHex(b[1..]);
      FromHexToHex(b[1..]);
    }
  }

  /** Encoding a decoded lower-case hex string gives the string back. */
  lemma {:induction false} ToHexFromHex(s: string)
    requires IsLowerHex(s)
    ensures |FromHex(s)| == |s| / 2
    ensures ToHex(FromHex(s)) == s
  {
    if s != [] {
      LowerHexTail(s);
      ToHexFromHex(s[2..]);
      LowerDigit(s[0]);
      LowerDigit(s[1]);
      var hi := DigitValue(s[0]).value;
      var lo := DigitValue(s[1]).value;
      ByteSplit(hi, lo);
      assert FromHex(s) == [hi * 16 + lo] + FromHex(s[2..]);
      assert s == [s[0], s[1]] + s[2..];
    }
  }

  lemma LowerHexTail(s: string)
    requires IsLowerHex(s) && s != []
    ensures |s| >= 2 && IsLowerHex(s[2..])
    ensures '0' <= s[0] <= '9' || 'a' <= s[0] <= 'f'
    ensures '0' <= s[1] <= '9' || 'a' <= s[1] <= 'f'
  {
    forall i | 0 <= i < |s[2..]| ensures '0' <= s[2..][i] <= '9' || 'a' <= s[2..][i] <= 'f' {
      assert s[2..][i] == s[i + 2];
    }
  }

  lemma LowerDigit(c: char)
    requires '0' <= c <= '9' || 'a' <= c <= 'f'
    ensures DigitValue(c).Some? && Digit(DigitValue(c).value) == c
  {
  }

  lemma ByteSplit(hi: nat, lo: nat)
    requires hi < 16 && lo < 16
    ensures (hi * 16 + lo) / 16 == hi && (hi * 16 + lo) % 16 == lo
  {
  }

  /** Every encoding is lower-case hex. */
  lemma {:induction false} ToHexIsLowerHex(b: bytes)
    ensures IsLowerHex(ToHex(b))
  {
    if b != [] {
      ToHexIsLowerHex(b[1..]);
      var s := ToHex(b);
      forall i | 0 <= i < |s| ensures '0' <= s[i] <= '9' || 'a' <= s[i] <= 'f' {
        if i >= 2 {
          assert s[i] == ToHex(b[1..])[i - 2];
        }
      }
    }
  }
}
