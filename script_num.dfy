/** Bitcoin's script-number format: the magnitude in minimal little-endian
    bytes, the sign in the top bit of the last byte, zero as the empty
    string. Minimality is the rule of BIP-62 (and of CScriptNum).
    `bitcoin.script.number.encode`, which writes the HTLC lock time,
    produces this format below 2^32 in magnitude; from 2^32 on its 32-bit
    arithmetic wraps (`LibEncode`). */
module ScriptNum {
  import opened Common

  function Abs(n: int): nat
  {
    if n < 0 then -n else n
  }

  /** The magnitude in little-endian bytes without a trailing zero byte. */
  function ToLE(m: nat): (b: bytes)
    ensures (m == 0) == (b == [])
    ensures b != [] ==> b[|b| - 1] != 0
  {
    if m == 0 then [] else [m % 256] + ToLE(m / 256)
  }

  function Encode(n: int): (b: bytes)
    ensures IsMinimal(b)
  {
    var mag := ToLE(Abs(n));
    if mag == [] then []
    else if mag[|mag| - 1] >= 0x80 then mag + [if n < 0 then 0x80 else 0]
    else if n < 0 then mag[..|mag| - 1] + [mag[|mag| - 1] + 0x80]
    else mag
  }

  function Decode(b: bytes): int
  {
    if b == [] then 0
    else
      var last := b[|b| - 1];
      var mag: int := FromLE(b[..|b| - 1] + [last % 0x80]);
      if last >= 0x80 then -mag else mag
  }

  /** BIP-62: the last byte carries magnitude bits, unless it is there only
      for the sign because the byte before it has its top bit set. */
  predicate IsMinimal(b: bytes)
  {
    b == [] || b[|b| - 1] % 0x80 != 0 || (|b| >= 2 && b[|b| - 2] >= 0x80)
  }

  /** CScriptNum's constructor: refuses more than maxSize bytes and, when
      minimal data is required, a non-minimal encoding. */
  function DecodeChecked(b: bytes, maxSize: nat, requireMinimal: bool): Option<int>
  {
    if |b| > maxSize then None
    else if requireMinimal && !IsMinimal(b) then None
    else Some(Decode(b))
  }

  lemma {:induction false} FromLEToLE(m: nat)
    ensures FromLE(ToLE(m)) == m
  {
    if m != 0 {
      FromLEToLE(m / 256);
      assert ToLE(m)[1..] == ToLE(m / 256);
    }
  }

  lemma {:induction false} FromLETrailingZero(s: bytes)
    ensures FromLE(s + [0]) == FromLE(s)
  {
    if s != [] {
      assert (s + [0])[1..] == s[1..] + [0];
      FromLETrailingZero(s[1..]);
    }
  }

  lemma {:induction false} ToLEFromLE(s: bytes)
    requires s != [] ==> s[|s| - 1] != 0
    ensures ToLE(FromLE(s)) == s
    ensures s != [] ==> FromLE(s) > 0
  {
    if s != [] {
      var t := s[1..];
      ToLEFromLE(t);
      var m := FromLE(s);
      if t == [] {
        assert m == s[0];
      } else {
        assert m == s[0] + 256 * FromLE(t);
        assert m % 256 == s[0] && m / 256 == FromLE(t);
      }
      assert s == [s[0]] + t;
    }
  }

  lemma {:induction false} ToLELength(m: nat, k: nat)
    requires m < Pow256(k)
    ensures |ToLE(m)| <= k
  {
    if m != 0 {
      ToLELength(m / 256, k - 1);
    }
  }

  /** If a magnitude below 0x80 * 256^(k-1) takes all k bytes, the last of
      them has its top bit clear. */
  lemma {:induction false} ToLELastBelowSignBit(m: nat, k: nat)
    requires k >= 1 && m < 0x80 * Pow256(k - 1) && |ToLE(m)| == k
    ensures ToLE(m)[k - 1] < 0x80
  {
    if k > 1 {
      assert ToLE(m)[1..] == ToLE(m / 256);
      ToLELastBelowSignBit(m / 256, k - 1);
    }
  }

  /** Decoding an encoding gives the number back. */
  lemma DecodeEncode(n: int)
    ensures Decode(Encode(n)) == n
  {
    var mag := ToLE(Abs(n));
    if mag != [] {
      if mag[|mag| - 1] >= 0x80 {
        DecodeEncodeLastSet(n, mag);
      } else {
        DecodeEncodeLastClear(n, mag);
      }
    }
  }

  /** Decoding splits off the last byte: its top bit is the sign, its low
      seven bits the top of the magnitude. */
  lemma DecodeLast(init: bytes, last: byte)
    ensures var v: int := FromLE(init + [last % 0x80]);
      Decode(init + [last]) == if last >= 0x80 then -v else v
  {
    var b := init + [last];
    assert b[..|b| - 1] == init;
  }

  lemma DecodeEncodeLastSet(n: int, mag: bytes)
    requires ToLE(Abs(n)) == mag && mag != [] && mag[|mag| - 1] >= 0x80
    ensures Decode(Encode(n)) == n
  {
    EncodeLastSet(n, mag);
    FromLEToLE(Abs(n));
    FromLETrailingZero(mag);
    DecodeLast(mag, if n < 0 then 0x80 else 0);
  }

  lemma DecodeEncodeLastClear(n: int, mag: bytes)
    requires ToLE(Abs(n)) == mag && mag != [] && mag[|mag| - 1] < 0x80
    ensures Decode(Encode(n)) == n
  {
    EncodeLastClear(n, mag);
    FromLEToLE(Abs(n));
    var init, last := mag[..|mag| - 1], mag[|mag| - 1];
    assert mag == init + [last];
    var v: int := FromLE(init + [last]);
    assert v == Abs(n);
    if n < 0 {
      assert Encode(n) == init + [last + 0x80];
      DecodeLast(init, last + 0x80);
      assert (last + 0x80) % 0x80 == last;
      assert Decode(init + [last + 0x80]) == -v;
    } else {
      assert Encode(n) == init + [last];
      DecodeLast(init, last);
      assert Decode(init + [last]) == v;
    }
  }

  /** A minimal string is the encoding of the number it denotes, so each
      number has exactly one minimal encoding. */
  lemma EncodeDecode(b: bytes)
    requires IsMinimal(b)
    ensures Encode(Decode(b)) == b
  {
    if b != [] {
      if b[|b| - 1] % 0x80 != 0 {
        EncodeDecodeMagnitudeByte(b);
      } else {
        EncodeDecodeSignByte(b);
      }
    }
  }

  /** The case where the last byte holds magnitude bits. */
  lemma EncodeDecodeMagnitudeByte(b: bytes)
    requires b != [] && b[|b| - 1] % 0x80 != 0
    ensures Encode(Decode(b)) == b
  {
    var init, last := b[..|b| - 1], b[|b| - 1];
    var low := if last >= 0x80 then last - 0x80 else last;
    assert last % 0x80 == low;
    var s := init + [low];
    ToLEFromLE(s);
    var m: int := FromLE(s);
    var n := Decode(b);
    assert n == if last >= 0x80 then -m else m;
    EncodeLastClear(n, s);
    assert s[..|s| - 1] == init && s[|s| - 1] == low;
    assert b == init + [last];
  }

  /** The case where the last byte is only the sign. */
  lemma EncodeDecodeSignByte(b: bytes)
    requires IsMinimal(b) && b != [] && b[|b| - 1] % 0x80 == 0
    ensures Encode(Decode(b)) == b
  {
    var init, last := b[..|b| - 1], b[|b| - 1];
    assert last == 0 || last == 0x80;
    assert init != [] && init[|init| - 1] >= 0x80;
    FromLETrailingZero(init);
    ToLEFromLE(init);
    var m: int := FromLE(init);
    var n := Decode(b);
    assert n == if last >= 0x80 then -m else m;
    EncodeLastSet(n, init);
    assert b == init + [last];
  }

  /** Encoding when the magnitude's top byte leaves the sign bit free. */
  lemma EncodeLastClear(n: int, mag: bytes)
    requires ToLE(Abs(n)) == mag && mag != [] && mag[|mag| - 1] < 0x80
    ensures Encode(n) == if n < 0 then mag[..|mag| - 1] + [mag[|mag| - 1] + 0x80] else mag
  {
  }

  /** Encoding when the magnitude's top byte has the sign bit set. */
  lemma EncodeLastSet(n: int, mag: bytes)
    requires ToLE(Abs(n)) == mag && mag != [] && mag[|mag| - 1] >= 0x80
    ensures Encode(n) == mag + [if n < 0 then 0x80 else 0]
  {
  }

  /** A number whose magnitude is below 0x80 * 256^(k-1) encodes in at most
      k bytes. */
  lemma EncodeLength(n: int, k: nat)
    requires k >= 1 && Abs(n) < 0x80 * Pow256(k - 1)
    ensures |Encode(n)| <= k
  {
    ToLELength(Abs(n), k);
    if |ToLE(Abs(n))| == k {
      ToLELastBelowSignBit(Abs(n), k);
    }
  }

  /** The checked decoder accepts an encoding that fits and returns the number. */
  lemma DecodeCheckedEncode(n: int, k: nat, requireMinimal: bool)
    requires k >= 1 && Abs(n) < 0x80 * Pow256(k - 1)
    ensures DecodeChecked(Encode(n), k, requireMinimal) == Some(n)
  {
    EncodeLength(n, k);
    DecodeEncode(n);
  }

  /** What the minimal-data decoder accepts is the encoding of its result. */
  lemma DecodeCheckedCanonical(b: bytes, k: nat, n: int)
    requires DecodeChecked(b, k, true) == Some(n)
    ensures Encode(n) == b
  {
    EncodeDecode(b);
  }

  /** The byte count `bitcoin.script.number.encode` allots: room for the
      magnitude and a free sign bit, and never more than five bytes. */
  function LibSize(v: nat): (k: nat)
    ensures k <= 5
    ensures 0 < k < 5 ==> v < 0x80 * Pow256(k - 1)
  {
    if v > 0x7fff_ffff then 5
    else if v > 0x7f_ffff then 4
    else if v > 0x7fff then 3
    else if v > 0x7f then 2
    else if v > 0 then 1
    else 0
  }

  /** JavaScript's conversion of a number to a signed 32-bit integer, which
      its bitwise operators apply to their operands. */
  function ToInt32(v: int): (w: int)
    ensures -0x8000_0000 <= w < 0x8000_0000
    ensures (v - w) % 0x1_0000_0000 == 0
  {
    (v + 0x8000_0000) % 0x1_0000_0000 - 0x8000_0000
  }

  /** `bitcoin.script.number.encode` as the library computes it: the bytes
      of the magnitude taken as a 32-bit integer; then a last byte with its
      top bit set is replaced by the bare sign, and any other last byte
      takes the sign bit. */
  function LibEncode(n: int): (b: bytes)
    ensures |b| == LibSize(Abs(n)) <= 5
  {
    var size := LibSize(Abs(n));
    // the loop's `value & 0xff; value >>= 8`, size times, on the 32-bit value
    var raw := LEFixed(ToInt32(Abs(n)), size);
    if size == 0 then []
    else if raw[size - 1] >= 0x80 then raw[..size - 1] + [if n < 0 then 0x80 else 0]
    else if n < 0 then raw[..size - 1] + [raw[size - 1] + 0x80]
    else raw
  }

  /** A magnitude of at least 256^j takes more than j bytes. */
  lemma {:induction false} ToLELengthAtLeast(m: nat, j: nat)
    requires m >= Pow256(j)
    ensures |ToLE(m)| > j
  {
    if j > 0 {
      assert m / 256 >= Pow256(j - 1);
      ToLELengthAtLeast(m / 256, j - 1);
    }
  }

  /** If a magnitude of at least 0x80 * 256^(k-1) takes k bytes, the last of
      them has its top bit set. */
  lemma {:induction false} ToLELastAboveSignBit(m: nat, k: nat)
    requires k >= 1 && m >= 0x80 * Pow256(k - 1) && |ToLE(m)| == k
    ensures ToLE(m)[k - 1] >= 0x80
  {
    assert ToLE(m)[1..] == ToLE(m / 256);
    if k > 1 {
      assert m / 256 >= 0x80 * Pow256(k - 2);
      ToLELastAboveSignBit(m / 256, k - 1);
    } else {
      assert m / 256 == 0;
    }
  }

  /** On a nonnegative value the loop writes its minimal little-endian
      bytes, and one more iteration adds a zero byte. */
  lemma {:induction false} LEFixedToLE(v: nat, k: nat)
    requires |ToLE(v)| == k
    ensures LEFixed(v, k) == ToLE(v)
    ensures LEFixed(v, k + 1) == ToLE(v) + [0]
  {
    if k > 0 {
      LEFixedToLE(v / 256, k - 1);
      assert LEFixed(v, k + 1) == [v % 256] + (ToLE(v / 256) + [0]);
    }
  }

  /** The bytes of w - 256^k are those of w below 256^k with a 0xff on top:
      the sign extension of a negative 32-bit value. */
  lemma {:induction false} LEFixedBorrow(w: nat, k: nat)
    requires w < Pow256(k)
    ensures LEFixed(w - Pow256(k), k + 1) == LEFixed(w, k) + [0xff]
  {
    if k > 0 {
      var p := Pow256(k - 1);
      assert w - Pow256(k) == 256 * (w / 256 - p) + w % 256;
      assert (w - Pow256(k)) % 256 == w % 256;
      assert (w - Pow256(k)) / 256 == w / 256 - p;
      LEFixedBorrow(w / 256, k - 1);
      assert LEFixed(w - Pow256(k), k + 1) == [w % 256] + (LEFixed(w / 256, k - 1) + [0xff]);
    }
  }

  /** Below 2^32 in magnitude the library writes exactly the script-number
      encoding. */
  lemma LibEncodeAgrees(n: int)
    requires Abs(n) < 0x1_0000_0000
    ensures LibEncode(n) == Encode(n)
  {
    if Abs(n) >= 0x8000_0000 {
      LibEncodeSignExtended(n);
    } else if Abs(n) > 0 {
      LibEncodeBelow31(n);
    }
  }

  /** Magnitudes below 2^31: the 32-bit value is the magnitude itself, and
      the allotted size is the minimal one. */
  lemma LibEncodeBelow31(n: int)
    requires 0 < Abs(n) < 0x8000_0000
    ensures LibEncode(n) == Encode(n)
  {
    var v := Abs(n);
    var size := LibSize(v);
    assert ToInt32(v) == v;
    assert Pow256(1) == 0x100 && Pow256(2) == 0x1_0000 && Pow256(3) == 0x100_0000;
    ToLELength(v, size);
    var mag := ToLE(v);
    if size >= 2 {
      assert v >= 0x80 * Pow256(size - 2);
      ToLELengthAtLeast(v, size - 2);
    }
    if |mag| == size {
      ToLELastBelowSignBit(v, size);
      LEFixedToLE(v, size);
      EncodeLastClear(n, mag);
    } else {
      assert |mag| == size - 1 && size >= 2;
      ToLELastAboveSignBit(v, size - 1);
      LEFixedToLE(v, size - 1);
      EncodeLastSet(n, mag);
      assert (mag + [0])[..size - 1] == mag;
    }
  }

  /** Magnitudes from 2^31 to 2^32: the 32-bit value is negative, so the
      fifth byte is 0xff, and it is the one replaced by the sign. */
  lemma LibEncodeSignExtended(n: int)
    requires 0x8000_0000 <= Abs(n) < 0x1_0000_0000
    ensures LibEncode(n) == Encode(n)
  {
    var v := Abs(n);
    assert Pow256(3) == 0x100_0000 && Pow256(4) == 0x1_0000_0000;
    assert ToInt32(v) == v - Pow256(4);
    ToLELength(v, 4);
    ToLELengthAtLeast(v, 3);
    var mag := ToLE(v);
    ToLELastAboveSignBit(v, 4);
    LEFixedBorrow(v, 4);
    LEFixedToLE(v, 4);
    EncodeLastSet(n, mag);
    assert (mag + [0xff])[..4] == mag;
  }

  /** JavaScript's 32-bit conversion of a non-negative number is its
      remainder modulo 2^32, less 2^32 when that remainder has its sign bit
      set. */
  lemma ToInt32Remainder(n: nat)
    ensures n % 0x1_0000_0000 < 0x8000_0000 ==> ToInt32(n) == n % 0x1_0000_0000
    ensures n % 0x1_0000_0000 >= 0x8000_0000 ==> ToInt32(n) == n % 0x1_0000_0000 - 0x1_0000_0000
  {
    var u := n % 0x1_0000_0000;
    var q := n / 0x1_0000_0000;
    assert n + 0x8000_0000 == q * 0x1_0000_0000 + (u + 0x8000_0000);
    if u < 0x8000_0000 {
      assert (n + 0x8000_0000) % 0x1_0000_0000 == u + 0x8000_0000;
    } else {
      assert n + 0x8000_0000 == (q + 1) * 0x1_0000_0000 + (u - 0x8000_0000);
      assert (n + 0x8000_0000) % 0x1_0000_0000 == u - 0x8000_0000;
    }
  }

  /** From 2^32 on the library writes the four low bytes of the number and
      a zero. */
  lemma LibEncodeHigh(n: int)
    requires 0x1_0000_0000 <= n
    ensures LibEncode(n) == LEFixed(n % 0x1_0000_0000, 4) + [0]
  {
    var u := n % 0x1_0000_0000;
    var low := LEFixed(u, 4);
    assert LibSize(Abs(n)) == 5;
    assert Pow256(4) == 0x1_0000_0000;
    ToInt32Remainder(n);
    var raw := LEFixed(ToInt32(n), 5);
    if u < 0x8000_0000 {
      FromLELEFixed(u, 4);
      assert raw == low + [0];
      assert raw[4] < 0x80;
    } else {
      LEFixedBorrow(u, 4);
      assert raw == low + [0xff];
      assert raw[..4] == low;
    }
  }

  /** From 2^32 on the library's bytes wrap around: they denote the number
      modulo 2^32, so they are not its encoding. */
  lemma LibEncodeWraps(n: int)
    requires 0x1_0000_0000 <= n
    ensures Decode(LibEncode(n)) == n % 0x1_0000_0000
    ensures LibEncode(n) != Encode(n)
  {
    var u := n % 0x1_0000_0000;
    assert Pow256(4) == 0x1_0000_0000;
    FromLELEFixed(u, 4);
    var low := LEFixed(u, 4);
    LibEncodeHigh(n);
    DecodeLast(low, 0);
    FromLETrailingZero(low);
    DecodeEncode(n);
  }

  /** The lock time of the worked example, 4860000000, as the library writes
      it: the bytes of 565032704 and a zero, which the minimal-data rule
      refuses because the zero is not needed for the sign. */
  lemma LibEncodeWorkedExample()
    ensures LibEncode(4_860_000_000) == [0x00, 0xb7, 0xad, 0x21, 0x00]
    ensures Decode(LibEncode(4_860_000_000)) == 565_032_704
    ensures DecodeChecked(LibEncode(4_860_000_000), 5, false) == Some(565_032_704)
    ensures DecodeChecked(LibEncode(4_860_000_000), 5, true) == None
  {
    assert 4_860_000_000 % 0x1_0000_0000 == 565_032_704;
    LibEncodeHigh(4_860_000_000);
    LibEncodeWraps(4_860_000_000);
    LowBytesWorkedExample();
  }

  /** The four low bytes of 565032704 = 0x21adb700. */
  lemma LowBytesWorkedExample()
    ensures LEFixed(565_032_704, 4) == [0x00, 0xb7, 0xad, 0x21]
  {
    assert LEFixed(33, 1) == [0x21];
    assert LEFixed(8_621, 2) == [0xad, 0x21];
    assert LEFixed(2_207_159, 3) == [0xb7, 0xad, 0x21];
  }
}
