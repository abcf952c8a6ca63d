/** Types shared by the whole model: bytes, optional values and results,
    20-byte digests and unsigned little-endian numbers. */
module Common {

  type byte = x: int | 0 <= x < 0x100
  type bytes = seq<byte>

  /** A 20-byte digest, the size of HASH160 (RIPEMD-160 of SHA-256). */
  type Digest20 = s: bytes | |s| == 20 witness seq(20, i => 0)

  datatype Option<+T> = None | Some(value: T)

  datatype Result<+T, +E> = Ok(value: T) | Err(error: E)

  function Pow256(k: nat): (p: nat)
    ensures p >= 1
  {
    if k == 0 then 1 else 256 * Pow256(k - 1)
  }

  /** The unsigned number a little-endian byte string denotes. */
  function FromLE(b: bytes): nat
  {
    if b == [] then 0 else b[0] + 256 * FromLE(b[1..])
  }

  /** The low `width` bytes of n, little-endian: byte i is n shifted right
      by 8i bits and masked to eight. With a divisor of 256, Dafny's `/` and
      `%` are that arithmetic shift and that mask, so a negative n gets the
      bytes of its two's complement. */
  function LEFixed(n: int, width: nat): (b: bytes)
    ensures |b| == width
    decreases width
  {
    if width == 0 then [] else [n % 256] + LEFixed(n / 256, width - 1)
  }

  /** A number below 256^width is what its `width` bytes denote, and one
      more byte adds a zero on top. */
  lemma {:induction false} FromLELEFixed(n: nat, width: nat)
    requires n < Pow256(width)
    ensures FromLE(LEFixed(n, width)) == n
    ensures LEFixed(n, width + 1) == LEFixed(n, width) + [0]
  {
    if width > 0 {
      assert n / 256 < Pow256(width - 1);
      FromLELEFixed(n / 256, width - 1);
      assert LEFixed(n, width)[1..] == LEFixed(n / 256, width - 1);
      assert LEFixed(n, width + 1) == [n % 256] + (LEFixed(n / 256, width - 1) + [0]);
    }
  }

  /** A k-byte little-endian string denotes a number below 256^k. */
  lemma {:induction false} FromLEBound(b: bytes)
    ensures FromLE(b) < Pow256(|b|)
  {
    if b != [] {
      FromLEBound(b[1..]);
    }
  }
}

/** Addresses, kept abstract: a version byte and the 20-byte hash it
    commits to. Base58Check text is not part of this model. */
module Addresses {
  import opened Common

  /** Version byte of a testnet pay-to-script-hash address. */
  const TestnetP2shVersion: byte := 0xc4

  datatype Address = Address(version: byte, hash: Digest20)

  /** `bitcoin.payments.p2sh` on the testnet: the address of a script. */
  function P2shAddress(script: bytes, hash160: bytes -> Digest20): Address
  {
    Address(TestnetP2shVersion, hash160(script))
  }
}
