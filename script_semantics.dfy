/** What the contract scripts mean under the reference evaluator: which
    stacks the HTLC's two branches accept, and what spending the address of
    the multisig contract requires. */
module ScriptSemantics {
  import opened Common
  import opened Script
  import opened Interpreter
  import ScriptNum
  import opened ContractScripts

  /** The reveal branch, run with the condition already popped, keeps the
      seller's signature check as its result exactly when the next stack
      item equals the payment hash; otherwise it fails. */
  lemma RunReveal(env: Env, paymentHash: bytes, seller: bytes, base: seq<bytes>,
                  sig: bytes, x: bytes, exec: seq<bool>)
    requires false !in exec
    requires |paymentHash| <= MaxElementSize && |seller| <= MaxElementSize
    ensures Run(env, RevealBranch(paymentHash, seller), Machine(base + [sig, x], exec)) ==
      if x == paymentHash then Some(Machine(base + [Bool(env.checkSig(sig, seller))], exec)) else None
  {
    var tail2 := [Push(seller), Op(OP_CHECKSIG)];
    var tail1 := [Op(OP_EQUALVERIFY)] + tail2;
    assert RevealBranch(paymentHash, seller) == [Push(paymentHash)] + tail1;
    StepPush(env, paymentHash, Machine(base + [sig, x], exec));
    assert base + [sig, x] + [paymentHash] == (base + [sig]) + [x, paymentHash];
    RunCons(env, Push(paymentHash), tail1, Machine(base + [sig, x], exec));
    StepEqualVerify(env, base + [sig], x, paymentHash, exec);
    RunCons(env, Op(OP_EQUALVERIFY), tail2, Machine((base + [sig]) + [x, paymentHash], exec));
    if x == paymentHash {
      StepPush(env, seller, Machine(base + [sig], exec));
      assert base + [sig] + [seller] == base + [sig, seller];
      RunCons(env, Push(seller), [Op(OP_CHECKSIG)], Machine(base + [sig], exec));
      StepCheckSig(env, base, sig, seller, exec);
      RunCons(env, Op(OP_CHECKSIG), [], Machine(base + [sig, seller], exec));
    }
  }

  /** The refund branch with any push in front of the lock-time check: the
      buyer's signature check is the result exactly when the BIP-65 check
      passes for the number the check reads from the push; otherwise the
      branch fails. */
  lemma RunRefundWith(env: Env, e: bytes, lockTime: int, buyer: bytes, base: seq<bytes>,
                      sig: bytes, exec: seq<bool>)
    requires false !in exec
    requires |e| <= MaxElementSize && |buyer| <= MaxElementSize
    requires ScriptNum.DecodeChecked(e, LockTimeNumSize, false) == Some(lockTime)
    ensures Run(env, [Push(e), Op(OP_CHECKLOCKTIMEVERIFY), Op(OP_DROP), Push(buyer), Op(OP_CHECKSIG)],
                Machine(base + [sig], exec)) ==
      if LockTimeSatisfied(env, lockTime)
      then Some(Machine(base + [Bool(env.checkSig(sig, buyer))], exec))
      else None
  {
    var s := base + [sig];
    var tail3 := [Push(buyer), Op(OP_CHECKSIG)];
    var tail2 := [Op(OP_DROP)] + tail3;
    var tail1 := [Op(OP_CHECKLOCKTIMEVERIFY)] + tail2;
    assert [Push(e), Op(OP_CHECKLOCKTIMEVERIFY), Op(OP_DROP), Push(buyer), Op(OP_CHECKSIG)] == [Push(e)] + tail1;
    StepPush(env, e, Machine(s, exec));
    RunCons(env, Push(e), tail1, Machine(s, exec));
    StepLockTime(env, s, e, lockTime, exec);
    RunCons(env, Op(OP_CHECKLOCKTIMEVERIFY), tail2, Machine(s + [e], exec));
    if LockTimeSatisfied(env, lockTime) {
      StepDrop(env, s, e, exec);
      RunCons(env, Op(OP_DROP), tail3, Machine(s + [e], exec));
      StepPush(env, buyer, Machine(s, exec));
      assert s + [buyer] == base + [sig, buyer];
      RunCons(env, Push(buyer), [Op(OP_CHECKSIG)], Machine(s, exec));
      StepCheckSig(env, base, sig, buyer, exec);
      RunCons(env, Op(OP_CHECKSIG), [], Machine(base + [sig, buyer], exec));
    }
  }

  /** The refund branch, run after the condition, keeps the buyer's
      signature check as its result exactly when the BIP-65 lock-time check
      passes; otherwise it fails. */
  lemma RunRefund(env: Env, lockTime: int, buyer: bytes, base: seq<bytes>, sig: bytes, exec: seq<bool>)
    requires false !in exec
    requires ScriptNum.Abs(lockTime) < LockTimeRange && |buyer| <= MaxElementSize
    ensures Run(env, RefundBranch(lockTime, buyer), Machine(base + [sig], exec)) ==
      if LockTimeSatisfied(env, lockTime)
      then Some(Machine(base + [Bool(env.checkSig(sig, buyer))], exec))
      else None
  {
    LockTimeRangeIsFiveBytes();
    ScriptNum.DecodeCheckedEncode(lockTime, LockTimeNumSize, false);
    ScriptNum.EncodeLength(lockTime, LockTimeNumSize);
    RunRefundWith(env, ScriptNum.Encode(lockTime), lockTime, buyer, base, sig, exec);
  }

  /** The worked example's refund branch with the library's push for the
      lock time 4860000000. Under consensus rules, which read the push
      without the minimal-data rule, it opens with the buyer's signature for
      any time-locked spending transaction dated after 565032704 (1987),
      while the branch with the script-number encoding stays shut until
      4860000000. Under the minimal-data rule of standard relay the push is
      refused. */
  lemma LibraryRefundOpensEarly(env: Env, buyer: bytes, base: seq<bytes>, sig: bytes)
    requires |buyer| <= MaxElementSize
    requires 565_032_704 <= env.txLockTime && !env.inputFinal
    ensures ScriptNum.DecodeChecked(ScriptNum.LibEncode(4_860_000_000), LockTimeNumSize, true) == None
    ensures Run(env, [Push(ScriptNum.LibEncode(4_860_000_000)), Op(OP_CHECKLOCKTIMEVERIFY), Op(OP_DROP),
                      Push(buyer), Op(OP_CHECKSIG)], Machine(base + [sig], [])) ==
      Some(Machine(base + [Bool(env.checkSig(sig, buyer))], []))
    ensures Run(env, RefundBranch(4_860_000_000, buyer), Machine(base + [sig], [])) == None
  {
    ScriptNum.LibEncodeWorkedExample();
    RunRefundWith(env, ScriptNum.LibEncode(4_860_000_000), 565_032_704, buyer, base, sig, []);
    RunRefund(env, 4_860_000_000, buyer, base, sig, []);
  }

  /** Pushes small enough for the evaluator's element limit. */
  predicate ElementSized(paymentHash: bytes, seller: bytes, buyer: bytes, lockTime: int)
  {
    && |paymentHash| <= MaxElementSize && |seller| <= MaxElementSize && |buyer| <= MaxElementSize
    && ScriptNum.Abs(lockTime) < LockTimeRange
  }

  lemma BranchesSkippable(paymentHash: bytes, seller: bytes, buyer: bytes, lockTime: int)
    requires ElementSized(paymentHash, seller, buyer, lockTime)
    ensures Skippable(RevealBranch(paymentHash, seller))
    ensures Skippable(RefundBranch(lockTime, buyer))
  {
    LockTimeRangeIsFiveBytes();
    ScriptNum.EncodeLength(lockTime, 5);
    var r := RefundBranch(lockTime, buyer);
    forall i | 0 <= i < |r|
      ensures match r[i] case Push(d) => |d| <= MaxElementSize case Op(c) => c != OP_IF && c != OP_ELSE && c != OP_ENDIF
    {
    }
  }

  /** The HTLC splits into its five parts for evaluation. */
  lemma RunHtlc(env: Env, paymentHash: bytes, seller: bytes, buyer: bytes, lockTime: int, m: Machine)
    ensures Run(env, HtlcScript(paymentHash, seller, buyer, lockTime), m) ==
      match Step(env, Op(OP_IF), m)
      case None => None
      case Some(m1) =>
        match Run(env, RevealBranch(paymentHash, seller), m1)
        case None => None
        case Some(m2) =>
          match Step(env, Op(OP_ELSE), m2)
          case None => None
          case Some(m3) =>
            match Run(env, RefundBranch(lockTime, buyer), m3)
            case None => None
            case Some(m4) => Step(env, Op(OP_ENDIF), m4)
  {
    var revealPart, refundPart := RevealBranch(paymentHash, seller), RefundBranch(lockTime, buyer);
    var tail := [Op(OP_ELSE)] + refundPart + [Op(OP_ENDIF)];
    assert HtlcScript(paymentHash, seller, buyer, lockTime) == [Op(OP_IF)] + (revealPart + tail);
    RunAppend(env, [Op(OP_IF)], revealPart + tail, m);
    match Step(env, Op(OP_IF), m)
    case None =>
    case Some(m1) =>
      RunAppend(env, revealPart, tail, m1);
      match Run(env, revealPart, m1)
      case None =>
      case Some(m2) =>
        RunAppend(env, [Op(OP_ELSE)], refundPart + [Op(OP_ENDIF)], m2);
        assert tail == [Op(OP_ELSE)] + (refundPart + [Op(OP_ENDIF)]);
        match Step(env, Op(OP_ELSE), m2)
        case None =>
        case Some(m3) =>
          RunAppend(env, refundPart, [Op(OP_ENDIF)], m3);
  }

  /** Given a true condition on top, the HTLC accepts exactly when the item
      beneath equals the payment hash and the signature below that is the
      seller's. Since no hashing precedes the comparison, the value to
      present is the payment hash itself, which the script shows publicly. */
  lemma HtlcRevealAccepts(env: Env, paymentHash: bytes, seller: bytes, buyer: bytes, lockTime: int,
                          base: seq<bytes>, sig: bytes, x: bytes, cond: bytes)
    requires ElementSized(paymentHash, seller, buyer, lockTime) && CastToBool(cond)
    ensures Accepts(env, HtlcScript(paymentHash, seller, buyer, lockTime), base + [sig, x, cond]) <==>
            x == paymentHash && env.checkSig(sig, seller)
  {
    var m := Machine((base + [sig, x]) + [cond], []);
    assert base + [sig, x, cond] == (base + [sig, x]) + [cond];
    RunHtlc(env, paymentHash, seller, buyer, lockTime, m);
    StepIf(env, base + [sig, x], cond);
    RunReveal(env, paymentHash, seller, base, sig, x, [true]);
    if x == paymentHash {
      var s2 := base + [Bool(env.checkSig(sig, seller))];
      StepElse(env, s2, true);
      BranchesSkippable(paymentHash, seller, buyer, lockTime);
      RunSkipped(env, RefundBranch(lockTime, buyer), Machine(s2, [false]));
      StepEndif(env, s2, false);
      assert s2[|s2| - 1] == Bool(env.checkSig(sig, seller));
      assert CastToBool(Bool(env.checkSig(sig, seller))) == env.checkSig(sig, seller);
    }
  }

  /** Given a false condition on top, the HTLC accepts exactly when the
      spending transaction meets the lock time (BIP-65) and the signature
      beneath is the buyer's. */
  lemma HtlcRefundAccepts(env: Env, paymentHash: bytes, seller: bytes, buyer: bytes, lockTime: int,
                          base: seq<bytes>, sig: bytes, cond: bytes)
    requires ElementSized(paymentHash, seller, buyer, lockTime) && !CastToBool(cond)
    ensures Accepts(env, HtlcScript(paymentHash, seller, buyer, lockTime), base + [sig, cond]) <==>
            LockTimeSatisfied(env, lockTime) && env.checkSig(sig, buyer)
  {
    var m := Machine((base + [sig]) + [cond], []);
    assert base + [sig, cond] == (base + [sig]) + [cond];
    RunHtlc(env, paymentHash, seller, buyer, lockTime, m);
    StepIf(env, base + [sig], cond);
    BranchesSkippable(paymentHash, seller, buyer, lockTime);
    RunSkipped(env, RevealBranch(paymentHash, seller), Machine(base + [sig], [false]));
    StepElse(env, base + [sig], false);
    RunRefund(env, lockTime, buyer, base, sig, [true]);
    if LockTimeSatisfied(env, lockTime) {
      var s4 := base + [Bool(env.checkSig(sig, buyer))];
      StepEndif(env, s4, true);
      assert s4[|s4| - 1] == Bool(env.checkSig(sig, buyer));
      assert CastToBool(Bool(env.checkSig(sig, buyer))) == env.checkSig(sig, buyer);
    }
  }

  /** The P2SH output script accepts a stack exactly when its top element
      hashes to the committed hash. */
  lemma P2shScriptAccepts(env: Env, scriptHash: Digest20, stack: seq<bytes>, top: bytes)
    ensures Accepts(env, P2shScript(scriptHash), stack + [top]) <==> env.hash160(top) == scriptHash
  {
    var h := env.hash160(top);
    assert P2shScript(scriptHash) == [Op(OP_HASH160)] + ([Push(scriptHash)] + [Op(OP_EQUAL)]);
    StepHash160(env, stack, top, []);
    RunCons(env, Op(OP_HASH160), [Push(scriptHash)] + [Op(OP_EQUAL)], Machine(stack + [top], []));
    StepPush(env, scriptHash, Machine(stack + [h], []));
    assert stack + [h] + [scriptHash] == stack + [h, scriptHash];
    RunCons(env, Push(scriptHash), [Op(OP_EQUAL)], Machine(stack + [h], []));
    StepEqual(env, stack, h, scriptHash, []);
    RunCons(env, Op(OP_EQUAL), [], Machine(stack + [h, scriptHash], []));
    var t := stack + [Bool(h == scriptHash)];
    assert t[|t| - 1] == Bool(h == scriptHash);
  }

  /** BIP-16 for a canonical redeem script: spending the P2SH output of its
      bytes with a stack that ends in those bytes succeeds exactly when the
      redeem script accepts the rest of the stack. */
  lemma SpendP2shOf(env: Env, redeem: seq<Item>, stack: seq<bytes>)
    requires AllCanonical(redeem)
    ensures Encodable(redeem)
    ensures |Serialize(redeem)| <= MaxElementSize && (forall i :: 0 <= i < |stack| ==> |stack[i]| <= MaxElementSize) ==>
      (SpendsP2sh(env, P2shScript(env.hash160(Serialize(redeem))), stack + [Serialize(redeem)]) <==>
             Accepts(env, redeem, stack))
  {
    ParseSerialize(redeem);
    var r := Serialize(redeem);
    var full := stack + [r];
    P2shScriptAccepts(env, env.hash160(r), stack, r);
    assert full[..|full| - 1] == stack && full[|full| - 1] == r;
    if |r| <= MaxElementSize && (forall i :: 0 <= i < |stack| ==> |stack[i]| <= MaxElementSize) {
      assert forall i :: 0 <= i < |full| ==> |full[i]| <= MaxElementSize by {
        forall i | 0 <= i < |full| ensures |full[i]| <= MaxElementSize {
          if i < |stack| { assert full[i] == stack[i]; }
        }
      }
    }
  }

  /** The escrow contract's address is the P2SH address of its P2SH script,
      not of the 2-of-3 script. Spending it needs no signature at all:
      presenting the (public) multisig script and the P2SH script succeeds
      whatever the signature checker says. */
  lemma MultisigAddressNeedsNoSignature(env: Env, buyer: bytes, seller: bytes, escrow: bytes)
    requires Encodable(MultisigScript(buyer, seller, escrow))
    requires |Serialize(MultisigScript(buyer, seller, escrow))| <= MaxElementSize
    ensures var multisig := Serialize(MultisigScript(buyer, seller, escrow));
      var wrapper := P2shScript(env.hash160(multisig));
      && Encodable(wrapper)
      && SpendsP2sh(env, P2shScript(env.hash160(Serialize(wrapper))), [multisig, Serialize(wrapper)])
  {
    var multisig := Serialize(MultisigScript(buyer, seller, escrow));
    var wrapper := P2shScript(env.hash160(multisig));
    assert AllCanonical(wrapper) by {
      forall i | 0 <= i < |wrapper| ensures Canonical(wrapper[i]) { }
    }
    P2shBytes(env.hash160(multisig));
    SpendP2shOf(env, wrapper, [multisig]);
    P2shScriptAccepts(env, env.hash160(multisig), [], multisig);
    assert [] + [multisig] == [multisig];
    assert [multisig] + [Serialize(wrapper)] == [multisig, Serialize(wrapper)];
  }

  /** Spending the HTLC contract's address with the seller's branch: the
      spender's stack ends with the true condition and the HTLC's bytes. */
  lemma HtlcAddressReveal(env: Env, paymentHash: bytes, seller: bytes, buyer: bytes, lockTime: int,
                          sig: bytes, x: bytes, cond: bytes)
    requires CanonicalHtlcParams(paymentHash, seller, buyer, lockTime)
    requires ElementSized(paymentHash, seller, buyer, lockTime) && CastToBool(cond)
    requires |sig| <= MaxElementSize && |x| <= MaxElementSize && |cond| <= MaxElementSize
    ensures Encodable(HtlcScript(paymentHash, seller, buyer, lockTime))
    ensures var htlc := Serialize(HtlcScript(paymentHash, seller, buyer, lockTime));
      |htlc| <= MaxElementSize ==>
        (SpendsP2sh(env, P2shScript(env.hash160(htlc)), [sig, x, cond, htlc]) <==>
               x == paymentHash && env.checkSig(sig, seller))
  {
    var h := HtlcScript(paymentHash, seller, buyer, lockTime);
    HtlcCanonical(paymentHash, seller, buyer, lockTime);
    var stack := [sig, x, cond];
    assert forall i :: 0 <= i < |stack| ==> |stack[i]| <= MaxElementSize;
    SpendP2shOf(env, h, stack);
    HtlcRevealAccepts(env, paymentHash, seller, buyer, lockTime, [], sig, x, cond);
    assert [] + [sig, x, cond] == stack;
    assert stack + [Serialize(h)] == [sig, x, cond, Serialize(h)];
  }

  /** Spending the HTLC contract's address with the buyer's branch. */
  lemma HtlcAddressRefund(env: Env, paymentHash: bytes, seller: bytes, buyer: bytes, lockTime: int,
                          sig: bytes, cond: bytes)
    requires CanonicalHtlcParams(paymentHash, seller, buyer, lockTime)
    requires ElementSized(paymentHash, seller, buyer, lockTime) && !CastToBool(cond)
    requires |sig| <= MaxElementSize && |cond| <= MaxElementSize
    ensures Encodable(HtlcScript(paymentHash, seller, buyer, lockTime))
    ensures var htlc := Serialize(HtlcScript(paymentHash, seller, buyer, lockTime));
      |htlc| <= MaxElementSize ==>
        (SpendsP2sh(env, P2shScript(env.hash160(htlc)), [sig, cond, htlc]) <==>
               LockTimeSatisfied(env, lockTime) && env.checkSig(sig, buyer))
  {
    var h := HtlcScript(paymentHash, seller, buyer, lockTime);
    HtlcCanonical(paymentHash, seller, buyer, lockTime);
    var stack := [sig, cond];
    assert forall i :: 0 <= i < |stack| ==> |stack[i]| <= MaxElementSize;
    SpendP2shOf(env, h, stack);
    HtlcRefundAccepts(env, paymentHash, seller, buyer, lockTime, [], sig, cond);
    assert [] + [sig, cond] == stack;
    assert stack + [Serialize(h)] == [sig, cond, Serialize(h)];
  }
}
