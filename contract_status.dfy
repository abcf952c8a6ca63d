/** The payment-status handler of the deployer: the status vocabulary, the
    human-readable message for a status, and the simulated status report
    derived from the characters of a contract id. The clock is a parameter
    (milliseconds since the epoch); dates are kept as those numbers. */
module ContractStatus {
  import opened Common

  /** The four states the simulated status check reports, in the order of
      its `mockStates` table. */
  datatype PaymentStatus = Pending | Received | Confirmed | Settled

  const MockStates: seq<PaymentStatus> := [Pending, Received, Confirmed, Settled]

  function Name(p: PaymentStatus): string
  {
    match p
    case Pending => "pending"
    case Received => "received"
    case Confirmed => "confirmed"
    case Settled => "settled"
  }

  /** Reads a status name back; None for any other text. */
  function StatusFromName(s: string): (r: Option<PaymentStatus>)
    ensures r.Some? ==> Name(r.value) == s
  {
    if s == "pending" then Some(Pending)
    else if s == "received" then Some(Received)
    else if s == "confirmed" then Some(Confirmed)
    else if s == "settled" then Some(Settled)
    else None
  }

  /** Reading a name back gives the status, and only names read back. */
  lemma NameRoundTrip(p: PaymentStatus, s: string)
    ensures StatusFromName(Name(p)) == Some(p)
    ensures StatusFromName(s).Some? <==> exists q :: Name(q) == s
  {
    if exists q :: Name(q) == s {
      var q :| Name(q) == s;
      assert StatusFromName(Name(q)) == Some(q);
    }
  }

  const PendingMessage: string := "Aguardando pagamento do comprador."
  const ReceivedMessage: string := "Pagamento recebido, aguardando confirmações."
  const ConfirmedMessage: string := "Pagamento confirmado, processando transferência para o vendedor."
  const SettledMessage: string := "Pagamento concluído e liquidado para o vendedor."
  const UnknownMessage: string := "Status desconhecido."

  /** `getStatusMessage`: the message for a status name, or the
      unknown-status message for any other text. */
  function StatusMessage(status: string): string
  {
    match StatusFromName(status)
    case Some(Pending) => PendingMessage
    case Some(Received) => ReceivedMessage
    case Some(Confirmed) => ConfirmedMessage
    case Some(Settled) => SettledMessage
    case None => UnknownMessage
  }

  /** Every status has its own message, none of them the unknown-status
      one, and exactly the texts that are not status names get that one. */
  lemma StatusMessages(p: PaymentStatus, q: PaymentStatus, s: string)
    ensures StatusMessage(Name(p)) != UnknownMessage
    ensures StatusMessage(Name(p)) == StatusMessage(Name(q)) <==> p == q
    ensures StatusMessage(s) == UnknownMessage <==> StatusFromName(s).None?
  {
    NameRoundTrip(p, s);
    NameRoundTrip(q, s);
  }

  /** The sum of the character codes of an id, as the handler's `reduce`. */
  function IdSum(id: string): nat
  {
    if id == [] then 0 else id[0] as nat + IdSum(id[1..])
  }

  /** The sum of a concatenation is the sum of both parts. */
  lemma {:induction false} IdSumAppend(a: string, b: string)
    ensures IdSum(a + b) == IdSum(a) + IdSum(b)
  {
    if a == [] {
      assert a + b == b;
    } else {
      assert (a + b)[1..] == a[1..] + b;
      IdSumAppend(a[1..], b);
    }
  }

  /** The index into the status table: the last two decimal digits of the
      sum, in bands of 25. */
  function MockStateIndex(idSum: nat): (i: nat)
    ensures i < |MockStates|
    ensures 25 * i <= idSum % 100 < 25 * (i + 1)
  {
    (idSum % 100) / 25
  }

  const HourMillis: int := 60 * 60 * 1000
  const QuarterHourMillis: int := 15 * 60 * 1000

  datatype StatusError = ContractIdRequired

  datatype StatusReport = StatusReport(
    contractId: string,
    status: PaymentStatus,
    deployedAt: int,
    receivedAt: Option<int>,
    confirmedAt: Option<int>,
    settledAt: Option<int>,
    message: string)

  /** The status check for the id in the query string, at time `nowMillis`.
      The deployment is placed an hour back; each later event that the
      status implies is placed a further quarter hour on. */
  function CheckPaymentStatus(contractId: Option<string>, nowMillis: int): Result<StatusReport, StatusError>
  {
    if contractId.None? || contractId.value == "" then Err(ContractIdRequired)
    else
      var status := MockStates[MockStateIndex(IdSum(contractId.value))];
      var deployedAt := nowMillis - HourMillis;
      Ok(StatusReport(
        contractId.value,
        status,
        deployedAt,
        if status != Pending then Some(deployedAt + QuarterHourMillis) else None,
        if status == Confirmed || status == Settled then Some(deployedAt + 2 * QuarterHourMillis) else None,
        if status == Settled then Some(deployedAt + 3 * QuarterHourMillis) else None,
        StatusMessage(Name(status))))
  }

  /** The check fails exactly when the id is absent or empty. */
  lemma CheckRejects(contractId: Option<string>, nowMillis: int)
    ensures CheckPaymentStatus(contractId, nowMillis).Err? <==> contractId.None? || contractId.value == ""
  {
  }

  /** Which status an id gets, by the last two decimal digits of its sum. */
  lemma StatusBands(id: string, nowMillis: int)
    requires id != ""
    ensures var r := CheckPaymentStatus(Some(id), nowMillis);
      var d := IdSum(id) % 100;
      && r.Ok? && r.value.contractId == id
      && (r.value.status == Pending <==> d < 25)
      && (r.value.status == Received <==> 25 <= d < 50)
      && (r.value.status == Confirmed <==> 50 <= d < 75)
      && (r.value.status == Settled <==> 75 <= d)
  {
    var i := MockStateIndex(IdSum(id));
    assert i == 0 || i == 1 || i == 2 || i == 3;
  }

  /** Taking the character at j out of an id takes its code out of the sum. */
  lemma IdSumRemove(b: string, j: nat)
    requires j < |b|
    ensures IdSum(b) == b[j] as nat + IdSum(b[..j] + b[j + 1..])
  {
    var l, r := b[..j], b[j + 1..];
    assert b == l + b[j..];
    assert b[j..][1..] == r;
    IdSumAppend(l, b[j..]);
    IdSumAppend(l, r);
  }

  /** Taking the character at j out of a string takes it out of the
      multiset. */
  lemma MultisetRemove(b: string, j: nat)
    requires j < |b|
    ensures multiset(b[..j] + b[j + 1..]) == multiset(b) - multiset{b[j]}
  {
    var l, r := b[..j], b[j + 1..];
    assert b == l + [b[j]] + r;
    assert multiset(b) == multiset(l) + multiset{b[j]} + multiset(r);
  }

  /** Dropping the first character drops it from the multiset. */
  lemma MultisetTail(a: string)
    requires a != []
    ensures multiset(a[1..]) == multiset(a) - multiset{a[0]}
  {
    assert a == [a[0]] + a[1..];
  }

  /** The sum depends only on which characters occur how often. */
  lemma {:induction false} IdSumPermutation(a: string, b: string)
    requires multiset(a) == multiset(b)
    ensures IdSum(a) == IdSum(b)
    decreases |a|
  {
    if a != [] {
      assert a[0] in multiset(b);
      var j :| 0 <= j < |b| && b[j] == a[0];
      var rest := b[..j] + b[j + 1..];
      MultisetRemove(b, j);
      MultisetTail(a);
      assert multiset(a[1..]) == multiset(rest);
      IdSumPermutation(a[1..], rest);
      IdSumRemove(b, j);
    } else {
      assert |b| == |multiset(b)| == 0;
    }
  }

  /** Ids with the same characters in any order get the same report: the
      same status, timestamps and message. */
  lemma StatusIgnoresOrder(a: string, b: string, nowMillis: int)
    requires a != "" && multiset(a) == multiset(b)
    ensures CheckPaymentStatus(Some(b), nowMillis).Ok?
    ensures CheckPaymentStatus(Some(a), nowMillis).value.(contractId := b) ==
            CheckPaymentStatus(Some(b), nowMillis).value
  {
    IdSumPermutation(a, b);
    assert |b| == |multiset(b)| == |multiset(a)| == |a|;
  }

  /** The timestamps the report carries: every later event implies the
      earlier ones, an event appears exactly when the status has reached
      it, and the events are a quarter hour apart from the deployment on. */
  lemma ReportTimeline(contractId: Option<string>, nowMillis: int)
    requires CheckPaymentStatus(contractId, nowMillis).Ok?
    ensures var r := CheckPaymentStatus(contractId, nowMillis).value;
      && r.deployedAt == nowMillis - HourMillis
      && (r.settledAt.Some? ==> r.confirmedAt.Some?)
      && (r.confirmedAt.Some? ==> r.receivedAt.Some?)
      && (r.receivedAt.Some? <==> r.status != Pending)
      && (r.confirmedAt.Some? <==> r.status in {Confirmed, Settled})
      && (r.settledAt.Some? <==> r.status == Settled)
      && (r.receivedAt.Some? ==> r.receivedAt.value == r.deployedAt + QuarterHourMillis < nowMillis)
      && (r.confirmedAt.Some? ==> r.receivedAt.value < r.confirmedAt.value < nowMillis)
      && (r.settledAt.Some? ==> r.confirmedAt.value < r.settledAt.value < nowMillis)
  {
  }

  /** The report's message is the status's own message, never the
      unknown-status one. */
  lemma ReportMessage(contractId: Option<string>, nowMillis: int)
    requires CheckPaymentStatus(contractId, nowMillis).Ok?
    ensures var r := CheckPaymentStatus(contractId, nowMillis).value;
      r.message == StatusMessage(Name(r.status)) && r.message != UnknownMessage
  {
    var r := CheckPaymentStatus(contractId, nowMillis).value;
    StatusMessages(r.status, r.status, "");
  }
}
