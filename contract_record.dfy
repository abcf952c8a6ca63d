/** The contract-generation handler: validation of the request body, the
    random id and payment hash, the lock time, and the contract record it
    returns. The random bytes, the clock readings and HASH160 come in as an
    environment, so the record is a function of the request and of them. */
module ContractRecord {
  import opened Common
  import opened Addresses
  import opened Script
  import Hex
  import ScriptNum
  import opened ContractScripts
  import Interpreter
  import ScriptSemantics

  type Bytes16 = s: bytes | |s| == 16 witness seq(16, i => 0)
  type Bytes32 = s: bytes | |s| == 32 witness seq(32, i => 0)

  /** The request body. An absent field is None. */
  datatype Request = Request(
    buyerPublicKey: Option<string>,
    buyerNodeId: Option<string>,
    sellerPublicKey: Option<string>,
    sellerNodeId: Option<string>,
    amount: Option<int>,
    description: Option<string>,
    lockTimeHours: Option<int>,
    useMultisig: bool,
    escrowPublicKey: Option<string>)

  /** What the handler draws from outside: 16 random bytes for the id, 32
      for the payment hash, the clock in milliseconds when the lock time is
      computed and when the record is stamped, and HASH160. */
  datatype GenerateEnv = GenerateEnv(
    idBytes: Bytes16,
    paymentHashBytes: Bytes32,
    nowMillis: int,
    createdAtMillis: int,
    hash160: bytes -> Digest20)

  datatype SaleKind = MultisigSale | SimpleSale

  function SaleKindName(k: SaleKind): string
  {
    match k
    case MultisigSale => "multisig_sale"
    case SimpleSale => "simple_sale"
  }

  datatype Party = Party(publicKey: string, nodeId: string)

  datatype Terms = Terms(amount: int, description: string, lockTime: int, lockTimeHours: int)

  datatype ScriptInfo = ScriptInfo(
    scriptType: string,
    scriptHex: string,
    paymentHash: string,
    bitcoinAddress: Address,
    p2shRedeemScript: string)

  /** The contract record; `escrow` is the escrow key, present only for the
      multisig kind. */
  datatype Contract = Contract(
    id: string,
    createdAt: int,
    status: string,
    kind: SaleKind,
    buyer: Party,
    seller: Party,
    escrow: Option<string>,
    transaction: Terms,
    contract: ScriptInfo)

  /** 400 for a missing field, 400 for a missing escrow key, and the 500
      answer when compiling throws. */
  datatype GenerateError = MissingParameters | EscrowKeyRequired | ScriptCompileFailed

  const CreatedStatus: string := "created"
  const DefaultDescription: string := "Payment for goods/services"

  /** A field counts as given when it is present and not the empty string. */
  predicate Given(s: Option<string>)
  {
    s.Some? && s.value != ""
  }

  /** The amount counts as given when it is present and not zero. */
  predicate GivenAmount(a: Option<int>)
  {
    a.Some? && a.value != 0
  }

  predicate RequiredPresent(req: Request)
  {
    && Given(req.buyerPublicKey) && Given(req.buyerNodeId)
    && Given(req.sellerPublicKey) && Given(req.sellerNodeId)
    && GivenAmount(req.amount)
  }

  /** A key as the bytes `Buffer.from(key, 'hex')` makes of it. */
  function KeyBytes(s: Option<string>): bytes
  {
    if s.Some? then Hex.FromHex(s.value) else []
  }

  function LockTimeHours(req: Request): int
  {
    if req.lockTimeHours.Some? then req.lockTimeHours.value else DefaultLockTimeHours
  }

  function LockTimeOf(req: Request, env: GenerateEnv): int
  {
    LockTimeExpiry(env.nowMillis, LockTimeHours(req))
  }

  /** The payment hash as the script receives it: the random bytes turned
      to hex and back. */
  function PaymentHashBytes(env: GenerateEnv): bytes
  {
    Hex.FromHex(Hex.ToHex(env.paymentHashBytes))
  }

  function CompileRequest(req: Request, env: GenerateEnv): Option<Compiled>
  {
    Compile(req.useMultisig, KeyBytes(req.buyerPublicKey), KeyBytes(req.sellerPublicKey),
            KeyBytes(req.escrowPublicKey), PaymentHashBytes(env), LockTimeOf(req, env), env.hash160)
  }

  /** The handler for a POST body. */
  function Generate(req: Request, env: GenerateEnv): Result<Contract, GenerateError>
  {
    if !RequiredPresent(req) then Err(MissingParameters)
    else if req.useMultisig && !Given(req.escrowPublicKey) then Err(EscrowKeyRequired)
    else
      match CompileRequest(req, env)
      case None => Err(ScriptCompileFailed)
      case Some(compiled) =>
        var scriptBytes := Serialize(compiled.script);
        var scriptHex := Hex.ToHex(scriptBytes);
        Ok(Contract(
          Hex.ToHex(env.idBytes),
          env.createdAtMillis,
          CreatedStatus,
          if req.useMultisig then MultisigSale else SimpleSale,
          Party(req.buyerPublicKey.value, req.buyerNodeId.value),
          Party(req.sellerPublicKey.value, req.sellerNodeId.value),
          if req.useMultisig then Some(req.escrowPublicKey.value) else None,
          Terms(
            req.amount.value,
            if Given(req.description) then req.description.value else DefaultDescription,
            LockTimeOf(req, env),
            LockTimeHours(req)),
          ScriptInfo(
            ScriptTypeName(compiled.scriptType),
            scriptHex,
            Hex.ToHex(env.paymentHashBytes),
            P2shAddress(scriptBytes, env.hash160),
            scriptHex)))
  }

  /** Which requests are refused, and with which answer; none of it depends
      on the random bytes, the clock or the hash. */
  lemma GenerateRejects(req: Request, env: GenerateEnv)
    ensures Generate(req, env) == Err(MissingParameters) <==> !RequiredPresent(req)
    ensures Generate(req, env) == Err(EscrowKeyRequired) <==>
            RequiredPresent(req) && req.useMultisig && !Given(req.escrowPublicKey)
  {
  }

  /** Keys whose hex text is below 2^33 characters always compile, so a
      valid request with a lock time in CLTV's range always gets a record. */
  lemma GenerateSucceeds(req: Request, env: GenerateEnv)
    requires RequiredPresent(req) && (req.useMultisig ==> Given(req.escrowPublicKey))
    requires |req.buyerPublicKey.value| < 2 * PushLimit && |req.sellerPublicKey.value| < 2 * PushLimit
    requires req.escrowPublicKey.Some? ==> |req.escrowPublicKey.value| < 2 * PushLimit
    requires ScriptNum.Abs(LockTimeOf(req, env)) < LockTimeRange
    ensures Generate(req, env).Ok?
  {
    Hex.FromHexToHex(env.paymentHashBytes);
    CompileSucceeds(req.useMultisig, KeyBytes(req.buyerPublicKey), KeyBytes(req.sellerPublicKey),
                    KeyBytes(req.escrowPublicKey), PaymentHashBytes(env), LockTimeOf(req, env), env.hash160);
  }

  /** The fields of a generated record: a 32-digit lower-case hex id, the
      'created' status, the kind (and its type name) and escrow key by
      `useMultisig`, the request's own parties and amount, its description
      unless that is absent or empty, and its lock-time hours unless they
      are absent. */
  lemma RecordFields(req: Request, env: GenerateEnv)
    requires Generate(req, env).Ok?
    ensures var c := Generate(req, env).value;
      && c.id == Hex.ToHex(env.idBytes) && |c.id| == 32 && Hex.IsLowerHex(c.id)
      && Hex.FromHex(c.id) == env.idBytes
      && c.createdAt == env.createdAtMillis
      && c.status == CreatedStatus
      && (c.kind == MultisigSale <==> req.useMultisig)
      && SaleKindName(c.kind) == (if req.useMultisig then "multisig_sale" else "simple_sale")
      && (c.escrow.Some? <==> req.useMultisig)
      && (c.escrow.Some? ==> c.escrow.value == req.escrowPublicKey.value != "")
      && c.buyer == Party(req.buyerPublicKey.value, req.buyerNodeId.value)
      && c.seller == Party(req.sellerPublicKey.value, req.sellerNodeId.value)
      && c.transaction.amount == req.amount.value != 0
      && (!Given(req.description) ==> c.transaction.description == DefaultDescription)
      && (Given(req.description) ==> c.transaction.description == req.description.value)
      && (req.lockTimeHours.None? ==> c.transaction.lockTimeHours == 24)
      && (req.lockTimeHours.Some? ==> c.transaction.lockTimeHours == req.lockTimeHours.value)
      && c.contract.scriptType == ScriptTypeName(if req.useMultisig then P2shMultisig2of3 else HtlcWithTimelock)
  {
    Hex.ToHexIsLowerHex(env.idBytes);
    Hex.FromHexToHex(env.idBytes);
  }

  /** The lock time is the current Unix second plus the requested hours;
      by default a day (86400 seconds) ahead. */
  lemma RecordLockTime(req: Request, env: GenerateEnv)
    requires Generate(req, env).Ok?
    ensures var c := Generate(req, env).value;
      && c.transaction.lockTime == env.nowMillis / 1000 + c.transaction.lockTimeHours * 3600
      && (req.lockTimeHours.Some? ==>
            c.transaction.lockTime == env.nowMillis / 1000 + req.lockTimeHours.value * 3600)
      && (req.lockTimeHours.None? ==> c.transaction.lockTime == env.nowMillis / 1000 + 86400)
  {
  }

  /** The script fields: the redeem-script field repeats the script's own
      hex, the payment hash is 64 hex digits of the random bytes, and the
      address is the P2SH address of the bytes that hex denotes. */
  lemma RecordScriptFields(req: Request, env: GenerateEnv)
    requires Generate(req, env).Ok?
    ensures var s := Generate(req, env).value.contract;
      && s.p2shRedeemScript == s.scriptHex
      && Hex.IsLowerHex(s.scriptHex)
      && |s.paymentHash| == 64 && Hex.FromHex(s.paymentHash) == env.paymentHashBytes
      && s.bitcoinAddress.version == TestnetP2shVersion
      && s.bitcoinAddress.hash == env.hash160(Hex.FromHex(s.scriptHex))
  {
    var compiled := CompileRequest(req, env).value;
    Hex.FromHexToHex(Serialize(compiled.script));
    Hex.ToHexIsLowerHex(Serialize(compiled.script));
    Hex.FromHexToHex(env.paymentHashBytes);
  }

  /** For the sale without escrow the stored script is the HTLC over the
      random payment hash bytes, the seller's and buyer's key bytes and the
      lock time. */
  lemma HtlcRecordScript(req: Request, env: GenerateEnv)
    requires Generate(req, env).Ok? && !req.useMultisig
    ensures var c := Generate(req, env).value;
      && Encodable(HtlcScript(env.paymentHashBytes, KeyBytes(req.sellerPublicKey),
                              KeyBytes(req.buyerPublicKey), c.transaction.lockTime))
      && Hex.FromHex(c.contract.scriptHex) ==
         Serialize(HtlcScript(env.paymentHashBytes, KeyBytes(req.sellerPublicKey),
                              KeyBytes(req.buyerPublicKey), c.transaction.lockTime))
  {
    Hex.FromHexToHex(env.paymentHashBytes);
    Hex.FromHexToHex(Serialize(CompileRequest(req, env).value.script));
  }

  /** For the sale with escrow the stored script is the 23-byte P2SH output
      script of the 2-of-3 script, and the address hashes that again. */
  lemma MultisigRecordScript(req: Request, env: GenerateEnv)
    requires Generate(req, env).Ok? && req.useMultisig
    ensures var c := Generate(req, env).value;
      var redeem := MultisigScript(KeyBytes(req.buyerPublicKey), KeyBytes(req.sellerPublicKey),
                                   KeyBytes(req.escrowPublicKey));
      && Encodable(redeem)
      && Hex.FromHex(c.contract.scriptHex) == Serialize(P2shScript(env.hash160(Serialize(redeem))))
      && |Hex.FromHex(c.contract.scriptHex)| == 23
      && c.contract.bitcoinAddress.hash == env.hash160(Serialize(P2shScript(env.hash160(Serialize(redeem)))))
  {
    var redeem := MultisigScript(KeyBytes(req.buyerPublicKey), KeyBytes(req.sellerPublicKey),
                                 KeyBytes(req.escrowPublicKey));
    P2shBytes(env.hash160(Serialize(redeem)));
    Hex.FromHexToHex(Serialize(P2shScript(env.hash160(Serialize(redeem)))));
  }

  /** The escrow record's address can be spent by anyone who has seen the
      three public keys: the stack [2-of-3 script, stored script] satisfies
      it without any signature, whatever signature checker applies. */
  lemma MultisigRecordNeedsNoSignature(req: Request, env: GenerateEnv, chain: Interpreter.Env)
    requires Generate(req, env).Ok? && req.useMultisig && chain.hash160 == env.hash160
    requires var redeem := MultisigScript(KeyBytes(req.buyerPublicKey), KeyBytes(req.sellerPublicKey),
                                          KeyBytes(req.escrowPublicKey));
      Encodable(redeem) && |Serialize(redeem)| <= Interpreter.MaxElementSize
    ensures var c := Generate(req, env).value;
      var redeem := MultisigScript(KeyBytes(req.buyerPublicKey), KeyBytes(req.sellerPublicKey),
                                   KeyBytes(req.escrowPublicKey));
      && Encodable(redeem)
      && Interpreter.SpendsP2sh(chain, P2shScript(c.contract.bitcoinAddress.hash),
                                [Serialize(redeem), Hex.FromHex(c.contract.scriptHex)])
  {
    var buyer, seller, escrow := KeyBytes(req.buyerPublicKey), KeyBytes(req.sellerPublicKey),
                                 KeyBytes(req.escrowPublicKey);
    MultisigRecordScript(req, env);
    ScriptSemantics.MultisigAddressNeedsNoSignature(chain, buyer, seller, escrow);
  }

  /** For the sale without escrow, the seller's branch of the address is
      unlocked by the record's own published payment hash: with a true
      condition, spending succeeds exactly when the signature is the
      seller's. */
  lemma HtlcRecordSellerSpend(req: Request, env: GenerateEnv, chain: Interpreter.Env, sig: bytes, cond: bytes)
    requires Generate(req, env).Ok? && !req.useMultisig && chain.hash160 == env.hash160
    requires var c := Generate(req, env).value;
      && CanonicalHtlcParams(env.paymentHashBytes, KeyBytes(req.sellerPublicKey),
                             KeyBytes(req.buyerPublicKey), c.transaction.lockTime)
      && |KeyBytes(req.sellerPublicKey)| <= Interpreter.MaxElementSize
      && |KeyBytes(req.buyerPublicKey)| <= Interpreter.MaxElementSize
      && |sig| <= Interpreter.MaxElementSize && |cond| <= Interpreter.MaxElementSize
      && Interpreter.CastToBool(cond)
    ensures var c := Generate(req, env).value;
      var script := Hex.FromHex(c.contract.scriptHex);
      |script| <= Interpreter.MaxElementSize ==>
        (Interpreter.SpendsP2sh(chain, P2shScript(c.contract.bitcoinAddress.hash),
                                [sig, Hex.FromHex(c.contract.paymentHash), cond, script]) <==>
         chain.checkSig(sig, KeyBytes(req.sellerPublicKey)))
  {
    var c := Generate(req, env).value;
    var seller, buyer := KeyBytes(req.sellerPublicKey), KeyBytes(req.buyerPublicKey);
    HtlcRecordScript(req, env);
    RecordScriptFields(req, env);
    ScriptSemantics.HtlcAddressReveal(chain, env.paymentHashBytes, seller, buyer, c.transaction.lockTime,
                                      sig, env.paymentHashBytes, cond);
  }

  /** For the sale without escrow, the buyer's branch: with a false
      condition, spending succeeds exactly when the transaction meets the
      record's lock time and the signature is the buyer's. */
  lemma HtlcRecordBuyerSpend(req: Request, env: GenerateEnv, chain: Interpreter.Env, sig: bytes, cond: bytes)
    requires Generate(req, env).Ok? && !req.useMultisig && chain.hash160 == env.hash160
    requires var c := Generate(req, env).value;
      && CanonicalHtlcParams(env.paymentHashBytes, KeyBytes(req.sellerPublicKey),
                             KeyBytes(req.buyerPublicKey), c.transaction.lockTime)
      && |KeyBytes(req.sellerPublicKey)| <= Interpreter.MaxElementSize
      && |KeyBytes(req.buyerPublicKey)| <= Interpreter.MaxElementSize
      && |sig| <= Interpreter.MaxElementSize && |cond| <= Interpreter.MaxElementSize
      && !Interpreter.CastToBool(cond)
    ensures var c := Generate(req, env).value;
      var script := Hex.FromHex(c.contract.scriptHex);
      |script| <= Interpreter.MaxElementSize ==>
        (Interpreter.SpendsP2sh(chain, P2shScript(c.contract.bitcoinAddress.hash), [sig, cond, script]) <==>
         Interpreter.LockTimeSatisfied(chain, c.transaction.lockTime) &&
         chain.checkSig(sig, KeyBytes(req.buyerPublicKey)))
  {
    var c := Generate(req, env).value;
    var seller, buyer := KeyBytes(req.sellerPublicKey), KeyBytes(req.buyerPublicKey);
    HtlcRecordScript(req, env);
    RecordScriptFields(req, env);
    ScriptSemantics.HtlcAddressRefund(chain, env.paymentHashBytes, seller, buyer, c.transaction.lockTime,
                                      sig, cond);
  }
}
