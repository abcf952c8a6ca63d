/** The deploy and finalize handlers of the deployer. Deploying echoes the
    contract's identifiers with a fresh payment secret and a one-day expiry;
    finalizing checks only that the action is one of the three known ones.
    Neither looks up or changes a stored contract. The clock readings and
    random bytes are parameters. */
module ContractActions {
  import opened Common
  import opened Addresses
  import Hex
  import ContractRecord

  /** The parts of a posted contract that deploying reads. An absent
      object or field is None. */
  datatype DeployTerms = DeployTerms(amount: Option<int>, description: Option<string>)
  datatype DeployScript = DeployScript(paymentHash: Option<string>, bitcoinAddress: Option<Address>)
  datatype PostedContract = PostedContract(
    id: Option<string>,
    transaction: Option<DeployTerms>,
    contract: Option<DeployScript>)

  /** Two clock readings in milliseconds (for the expiry and for the deploy
      stamp) and the 32 random bytes of the payment secret. */
  datatype DeployEnv = DeployEnv(expiryClockMillis: int, deployedAtMillis: int, secret: ContractRecord.Bytes32)

  datatype DeployResult = DeployResult(
    status: string,
    contractId: string,
    deployStatus: string,
    deployedAt: int,
    paymentHash: Option<string>,
    paymentSecret: string,
    expiresAt: int,
    amount: Option<int>,
    bitcoinAddress: Option<Address>)

  /** 400 for a missing contract or id; 500 when a nested object the
      handler reads is missing and reading it throws. */
  datatype DeployError = InvalidContractData | DeployFailed

  const SuccessStatus: string := "success"
  const DeployedStatus: string := "deployed"
  const DayMillis: int := 24 * 60 * 60 * 1000

  function Deploy(contract: Option<PostedContract>, env: DeployEnv): Result<DeployResult, DeployError>
  {
    if contract.None? || !ContractRecord.Given(contract.value.id) then Err(InvalidContractData)
    else if contract.value.transaction.None? || contract.value.contract.None? then Err(DeployFailed)
    else
      var b := contract.value;
      Ok(DeployResult(
        SuccessStatus,
        b.id.value,
        DeployedStatus,
        env.deployedAtMillis,
        b.contract.value.paymentHash,
        Hex.ToHex(env.secret),
        env.expiryClockMillis + DayMillis,
        b.transaction.value.amount,
        b.contract.value.bitcoinAddress))
  }

  /** Which posted contracts are refused, and with which answer. */
  lemma DeployRejects(contract: Option<PostedContract>, env: DeployEnv)
    ensures Deploy(contract, env) == Err(InvalidContractData) <==>
            contract.None? || !ContractRecord.Given(contract.value.id)
    ensures Deploy(contract, env) == Err(DeployFailed) <==>
            contract.Some? && ContractRecord.Given(contract.value.id) &&
            (contract.value.transaction.None? || contract.value.contract.None?)
  {
  }

  /** A deployment echoes the contract's id, payment hash, amount and
      address unchanged, with a 64-digit hex secret and an expiry one day
      after the clock reading. */
  lemma DeployEcho(contract: Option<PostedContract>, env: DeployEnv)
    requires Deploy(contract, env).Ok?
    ensures var r := Deploy(contract, env).value;
      && r.status == SuccessStatus && r.deployStatus == DeployedStatus
      && r.contractId == contract.value.id.value
      && r.paymentHash == contract.value.contract.value.paymentHash
      && r.bitcoinAddress == contract.value.contract.value.bitcoinAddress
      && r.amount == contract.value.transaction.value.amount
      && r.expiresAt == env.expiryClockMillis + 86_400_000
      && r.deployedAt == env.deployedAtMillis
      && |r.paymentSecret| == 64 && Hex.IsLowerHex(r.paymentSecret)
      && Hex.FromHex(r.paymentSecret) == env.secret
  {
    Hex.ToHexIsLowerHex(env.secret);
    Hex.FromHexToHex(env.secret);
  }

  /** A generated record as the deploy handler receives it back. */
  function AsPosted(c: ContractRecord.Contract): PostedContract
  {
    PostedContract(
      Some(c.id),
      Some(DeployTerms(Some(c.transaction.amount), Some(c.transaction.description))),
      Some(DeployScript(Some(c.contract.paymentHash), Some(c.contract.bitcoinAddress))))
  }

  /** Every generated record deploys, and the answer carries the record's
      id, payment hash, amount and address. */
  lemma DeployGenerated(req: ContractRecord.Request, genv: ContractRecord.GenerateEnv, env: DeployEnv)
    requires ContractRecord.Generate(req, genv).Ok?
    ensures var c := ContractRecord.Generate(req, genv).value;
      var r := Deploy(Some(AsPosted(c)), env);
      && r.Ok?
      && r.value.contractId == c.id
      && r.value.paymentHash == Some(c.contract.paymentHash)
      && r.value.amount == Some(c.transaction.amount)
      && r.value.bitcoinAddress == Some(c.contract.bitcoinAddress)
  {
    ContractRecord.RecordFields(req, genv);
  }

  /** The three finalizing actions. */
  datatype Action = Complete | Refund | Dispute

  function ActionName(a: Action): string
  {
    match a
    case Complete => "complete"
    case Refund => "refund"
    case Dispute => "dispute"
  }

  /** The action named by the text, if it names one. */
  function ParseAction(s: string): (r: Option<Action>)
    ensures r.Some? ==> ActionName(r.value) == s
  {
    if s == "complete" then Some(Complete)
    else if s == "refund" then Some(Refund)
    else if s == "dispute" then Some(Dispute)
    else None
  }

  /** Names read back to their action, and only names are accepted. */
  lemma ActionRoundTrip(a: Action, s: string)
    ensures ParseAction(ActionName(a)) == Some(a)
    ensures ParseAction(s).Some? <==> s in {"complete", "refund", "dispute"}
  {
  }

  function ActionMessage(a: Action): string
  {
    match a
    case Complete => "Contrato finalizado com sucesso. Pagamento transferido para o vendedor."
    case Refund => "Contrato finalizado com reembolso ao comprador."
    case Dispute => "Contrato marcado como em disputa. Aguardando resolução."
  }

  /** Each action has its own message. */
  lemma ActionMessagesDistinct(a: Action, b: Action)
    ensures ActionMessage(a) == ActionMessage(b) <==> a == b
  {
  }

  datatype FinalizeBody = FinalizeBody(contractId: Option<string>, action: Option<string>)

  datatype FinalizeResult = FinalizeResult(
    status: string,
    contractId: string,
    action: string,
    message: string,
    finalizedAt: int)

  datatype FinalizeError = MissingParameters | InvalidAction

  /** The finalize handler at clock reading `finalizedAt`. */
  function Finalize(body: FinalizeBody, finalizedAt: int): Result<FinalizeResult, FinalizeError>
  {
    if !ContractRecord.Given(body.contractId) || !ContractRecord.Given(body.action) then Err(MissingParameters)
    else
      match ParseAction(body.action.value)
      case None => Err(InvalidAction)
      case Some(a) =>
        Ok(FinalizeResult(SuccessStatus, body.contractId.value, body.action.value, ActionMessage(a), finalizedAt))
  }

  /** Which posted contracts are refused, and with which answer. */
  lemma FinalizeRejects(body: FinalizeBody, finalizedAt: int)
    ensures Finalize(body, finalizedAt) == Err(MissingParameters) <==>
            !ContractRecord.Given(body.contractId) || !ContractRecord.Given(body.action)
    ensures Finalize(body, finalizedAt) == Err(InvalidAction) <==>
            ContractRecord.Given(body.contractId) && ContractRecord.Given(body.action) &&
            ParseAction(body.action.value).None?
  {
  }

  /** Any non-empty id is finalized with any known action, any number of
      times: the answer echoes the id and the action with that action's
      message, and nothing about the contract is consulted. */
  lemma FinalizeAccepts(id: string, a: Action, finalizedAt: int)
    requires id != ""
    ensures Finalize(FinalizeBody(Some(id), Some(ActionName(a))), finalizedAt) ==
            Ok(FinalizeResult(SuccessStatus, id, ActionName(a), ActionMessage(a), finalizedAt))
  {
    ActionRoundTrip(a, ActionName(a));
  }
}
