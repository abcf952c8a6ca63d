/** The script construction of the contract-generation handler
    (src/backend/lightingDeployer.js): a 2-of-3 escrow multisig wrapped in
    a pay-to-script-hash output script, or a hash- and time-locked branch
    script, each handed to the script compiler. */
module ContractScripts {
  import opened Common
  import opened Script
  import ScriptNum

  /** The 2-of-3 redeem script in the M-of-N form of BIP-11, keys in the
      order buyer, seller, escrow. */
  function MultisigScript(buyer: bytes, seller: bytes, escrow: bytes): seq<Item>
  {
    [Op(OP_2), Push(buyer), Push(seller), Push(escrow), Op(OP_3), Op(OP_CHECKMULTISIG)]
  }

  /** The pay-to-script-hash output script of BIP-16. */
  function P2shScript(scriptHash: Digest20): seq<Item>
  {
    [Op(OP_HASH160), Push(scriptHash), Op(OP_EQUAL)]
  }

  /** What the OP_IF branch runs: the stack item must equal the payment
      hash itself (no hashing opcode precedes the comparison), then the
      seller's signature is checked. */
  function RevealBranch(paymentHash: bytes, seller: bytes): seq<Item>
  {
    [Push(paymentHash), Op(OP_EQUALVERIFY), Push(seller), Op(OP_CHECKSIG)]
  }

  /** What the OP_ELSE branch runs: the BIP-65 lock-time check, then the
      buyer's signature. */
  function RefundBranch(lockTime: int, buyer: bytes): seq<Item>
  {
    [Push(ScriptNum.Encode(lockTime)), Op(OP_CHECKLOCKTIMEVERIFY), Op(OP_DROP),
     Push(buyer), Op(OP_CHECKSIG)]
  }

  /** OP_IF <reveal> OP_ELSE <refund> OP_ENDIF. */
  function HtlcScript(paymentHash: bytes, seller: bytes, buyer: bytes, lockTime: int): seq<Item>
  {
    [Op(OP_IF)] + RevealBranch(paymentHash, seller) + [Op(OP_ELSE)]
      + RefundBranch(lockTime, buyer) + [Op(OP_ENDIF)]
  }

  const DefaultLockTimeHours: int := 24

  /** The lock time: the current Unix time in whole seconds (the clock's
      milliseconds divided by 1000 and floored) plus the hours as seconds. */
  function LockTimeExpiry(nowMillis: int, lockTimeHours: int): (t: int)
    ensures (t - lockTimeHours * 3600) * 1000 <= nowMillis < (t - lockTimeHours * 3600 + 1) * 1000
  {
    nowMillis / 1000 + lockTimeHours * 60 * 60
  }

  datatype ScriptType = P2shMultisig2of3 | HtlcWithTimelock

  function ScriptTypeName(t: ScriptType): string
  {
    match t
    case P2shMultisig2of3 => "p2sh_multisig_2_of_3"
    case HtlcWithTimelock => "htlc_with_timelock"
  }

  /** The branch taken: the script type and the `bitcoinScript` whose
      serialization is stored and whose hash makes the address. */
  datatype Compiled = Compiled(scriptType: ScriptType, script: seq<Item>)

  /** Lines 55-100. None when a push is too long for the compiler, which
      then throws. For the multisig branch the P2SH output script itself
      becomes `bitcoinScript`, so the address is formed from it in turn. */
  function Compile(useMultisig: bool, buyer: bytes, seller: bytes, escrow: bytes,
                   paymentHash: bytes, lockTime: int, hash160: bytes -> Digest20): (r: Option<Compiled>)
    ensures r.Some? ==> Encodable(r.value.script)
    ensures r.Some? ==> (r.value.scriptType == P2shMultisig2of3 <==> useMultisig)
  {
    if useMultisig then
      var redeem := MultisigScript(buyer, seller, escrow);
      if !Encodable(redeem) then None
      else Some(Compiled(P2shMultisig2of3, P2shScript(hash160(Serialize(redeem)))))
    else
      var htlc := HtlcScript(paymentHash, seller, buyer, lockTime);
      if !Encodable(htlc) then None
      else Some(Compiled(HtlcWithTimelock, htlc))
  }

  /** A lock time decodes from the script, with CLTV's five-byte limit,
      whenever its magnitude is below 2^39. */
  const LockTimeRange: nat := 0x80_0000_0000

  lemma LockTimeRangeIsFiveBytes()
    ensures LockTimeRange == 0x80 * Pow256(4)
  {
  }

  /** The script type names are distinct. */
  lemma ScriptTypeNamesDistinct(a: ScriptType, b: ScriptType)
    ensures ScriptTypeName(a) == ScriptTypeName(b) <==> a == b
  {
  }

  /** Inputs whose pushes all fit make compilation succeed. */
  lemma CompileSucceeds(useMultisig: bool, buyer: bytes, seller: bytes, escrow: bytes,
                        paymentHash: bytes, lockTime: int, hash160: bytes -> Digest20)
    requires |buyer| < PushLimit && |seller| < PushLimit && |escrow| < PushLimit
    requires |paymentHash| < PushLimit && ScriptNum.Abs(lockTime) < LockTimeRange
    ensures Compile(useMultisig, buyer, seller, escrow, paymentHash, lockTime, hash160).Some?
  {
    LockTimeRangeIsFiveBytes();
    ScriptNum.EncodeLength(lockTime, 5);
    if !useMultisig {
      var htlc := HtlcScript(paymentHash, seller, buyer, lockTime);
      assert htlc == [Op(OP_IF), Push(paymentHash), Op(OP_EQUALVERIFY), Push(seller), Op(OP_CHECKSIG),
                      Op(OP_ELSE), Push(ScriptNum.Encode(lockTime)), Op(OP_CHECKLOCKTIMEVERIFY), Op(OP_DROP),
                      Push(buyer), Op(OP_CHECKSIG), Op(OP_ENDIF)];
      assert Encodable(htlc) by {
        forall i | 0 <= i < |htlc| ensures EncodableItem(htlc[i]) {
        }
      }
    }
  }

  /** Data the compiler writes as a push (not as an opcode) and the parser
      reads back as that push. */
  predicate DataPush(d: bytes)
  {
    MinimalOp(d).None? && |d| < PushLimit
  }

  /** A push whose length fits its single length byte: a 2..75-byte key is written
      as its length byte (0x21 for a 33-byte key, 0x41 for a 65-byte key)
      followed by the key. */
  predicate ShortPush(d: bytes)
  {
    2 <= |d| < OP_PUSHDATA1 as int
  }

  lemma ShortPushBytes(d: bytes)
    requires ShortPush(d)
    ensures EncodableItem(Push(d)) && ItemBytes(Push(d)) == [|d|] + d
  {
  }

  /** The multisig redeem script's bytes: OP_2, the three keys with their
      length bytes in the order buyer, seller, escrow, OP_3, OP_CHECKMULTISIG. */
  lemma MultisigBytes(buyer: bytes, seller: bytes, escrow: bytes)
    requires ShortPush(buyer) && ShortPush(seller) && ShortPush(escrow)
    ensures Encodable(MultisigScript(buyer, seller, escrow))
    ensures Serialize(MultisigScript(buyer, seller, escrow)) ==
      [0x52] + (([|buyer|] + buyer) + (([|seller|] + seller) + (([|escrow|] + escrow) + [0x53, 0xae])))
    ensures |Serialize(MultisigScript(buyer, seller, escrow))| == 6 + |buyer| + |seller| + |escrow|
  {
    var tail := [Op(OP_3), Op(OP_CHECKMULTISIG)];
    assert Serialize(tail) == [0x53, 0xae] by {
      SerializeCons(Op(OP_3), [Op(OP_CHECKMULTISIG)]);
      SerializeCons(Op(OP_CHECKMULTISIG), []);
    }
    var t3 := [Push(escrow)] + tail;
    ShortPushBytes(escrow);
    SerializeCons(Push(escrow), tail);
    var t2 := [Push(seller)] + t3;
    ShortPushBytes(seller);
    SerializeCons(Push(seller), t3);
    var t1 := [Push(buyer)] + t2;
    ShortPushBytes(buyer);
    SerializeCons(Push(buyer), t2);
    SerializeCons(Op(OP_2), t1);
    assert MultisigScript(buyer, seller, escrow) == [Op(OP_2)] + t1;
  }

  /** The P2SH output script is 23 bytes: 0xa9 0x14 <20-byte hash> 0x87. */
  lemma P2shBytes(scriptHash: Digest20)
    ensures Encodable(P2shScript(scriptHash))
    ensures Serialize(P2shScript(scriptHash)) == [0xa9, 0x14] + scriptHash + [0x87]
    ensures |Serialize(P2shScript(scriptHash))| == 23
  {
    var p := P2shScript(scriptHash);
    assert Serialize(p[2..]) == [0x87];
    assert p[1..][1..] == p[2..];
    assert Serialize(p[1..]) == [0x14] + scriptHash + [0x87];
  }

  /** The same multisig bytes come only from the same three keys in the
      same order (for keys the compiler does not turn into opcodes). */
  lemma MultisigInjective(a1: bytes, b1: bytes, c1: bytes, a2: bytes, b2: bytes, c2: bytes)
    requires DataPush(a1) && DataPush(b1) && DataPush(c1)
    requires DataPush(a2) && DataPush(b2) && DataPush(c2)
    requires Encodable(MultisigScript(a1, b1, c1)) && Encodable(MultisigScript(a2, b2, c2))
    requires Serialize(MultisigScript(a1, b1, c1)) == Serialize(MultisigScript(a2, b2, c2))
    ensures a1 == a2 && b1 == b2 && c1 == c2
  {
    var m1, m2 := MultisigScript(a1, b1, c1), MultisigScript(a2, b2, c2);
    assert AllCanonical(m1) by {
      forall i | 0 <= i < |m1| ensures Canonical(m1[i]) { }
    }
    assert AllCanonical(m2) by {
      forall i | 0 <= i < |m2| ensures Canonical(m2[i]) { }
    }
    SerializeInjective(m1, m2);
    assert m1[1] == m2[1] && m1[2] == m2[2] && m1[3] == m2[3];
  }

  /** A lock time above 16 is pushed as data, not as a small-number opcode. */
  lemma LockTimePushIsData(lockTime: int)
    requires lockTime > 16
    ensures MinimalOp(ScriptNum.Encode(lockTime)).None?
  {
    var mag := ScriptNum.ToLE(lockTime);
    if |mag| == 1 {
      assert ScriptNum.ToLE(lockTime / 256) == [];
      assert mag == [lockTime];
    }
  }

  /** HTLC parameters whose pushes the compiler writes as data. */
  predicate CanonicalHtlcParams(paymentHash: bytes, seller: bytes, buyer: bytes, lockTime: int)
  {
    DataPush(paymentHash) && DataPush(seller) && DataPush(buyer) && 16 < lockTime < LockTimeRange
  }

  lemma HtlcCanonical(paymentHash: bytes, seller: bytes, buyer: bytes, lockTime: int)
    requires CanonicalHtlcParams(paymentHash, seller, buyer, lockTime)
    ensures AllCanonical(HtlcScript(paymentHash, seller, buyer, lockTime))
  {
    LockTimePushIsData(lockTime);
    LockTimeRangeIsFiveBytes();
    ScriptNum.EncodeLength(lockTime, 5);
    var h := HtlcScript(paymentHash, seller, buyer, lockTime);
    forall i | 0 <= i < |h| ensures Canonical(h[i]) {
    }
  }

  /** Reading the HTLC's bytes back gives the script, and the push after
      OP_ELSE decodes, under CLTV's five-byte minimal rule, to the lock time. */
  lemma HtlcLockTimeDecodes(paymentHash: bytes, seller: bytes, buyer: bytes, lockTime: int)
    requires CanonicalHtlcParams(paymentHash, seller, buyer, lockTime)
    ensures Encodable(HtlcScript(paymentHash, seller, buyer, lockTime))
    ensures var parsed := Parse(Serialize(HtlcScript(paymentHash, seller, buyer, lockTime)));
      && parsed.Some? && |parsed.value| == 12
      && parsed.value[5] == Op(OP_ELSE)
      && parsed.value[6].Push?
      && ScriptNum.DecodeChecked(parsed.value[6].data, 5, true) == Some(lockTime)
  {
    HtlcCanonical(paymentHash, seller, buyer, lockTime);
    ParseSerialize(HtlcScript(paymentHash, seller, buyer, lockTime));
    LockTimeRangeIsFiveBytes();
    ScriptNum.DecodeCheckedEncode(lockTime, 5, true);
  }

  /** The same HTLC bytes come only from the same payment hash, keys and
      lock time. */
  lemma HtlcInjective(h1: bytes, s1: bytes, b1: bytes, t1: int, h2: bytes, s2: bytes, b2: bytes, t2: int)
    requires CanonicalHtlcParams(h1, s1, b1, t1) && CanonicalHtlcParams(h2, s2, b2, t2)
    requires Encodable(HtlcScript(h1, s1, b1, t1)) && Encodable(HtlcScript(h2, s2, b2, t2))
    requires Serialize(HtlcScript(h1, s1, b1, t1)) == Serialize(HtlcScript(h2, s2, b2, t2))
    ensures h1 == h2 && s1 == s2 && b1 == b2 && t1 == t2
  {
    var x1, x2 := HtlcScript(h1, s1, b1, t1), HtlcScript(h2, s2, b2, t2);
    HtlcCanonical(h1, s1, b1, t1);
    HtlcCanonical(h2, s2, b2, t2);
    SerializeInjective(x1, x2);
    assert x1[1] == x2[1] && x1[3] == x2[3] && x1[6] == x2[6] && x1[9] == x2[9];
    ScriptNum.DecodeEncode(t1);
    ScriptNum.DecodeEncode(t2);
  }

  /** 850000 hours requested at the clock reading 1.8e12 ms (January 2027)
      give a lock time past 2^32 seconds. The library's bytes for it denote
      565032704, a time in 1987, while the script-number encoding keeps the
      lock time. */
  lemma LargeHoursWrap()
    ensures LockTimeExpiry(1_800_000_000_000, 850_000) == 4_860_000_000
    ensures ScriptNum.Decode(ScriptNum.LibEncode(4_860_000_000)) == 565_032_704
    ensures ScriptNum.Decode(ScriptNum.Encode(4_860_000_000)) == 4_860_000_000
  {
    ScriptNum.LibEncodeWorkedExample();
    ScriptNum.DecodeEncode(4_860_000_000);
  }
}
