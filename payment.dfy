/** The on-chain payment helper: from the sender's unspent outputs it
    builds a transaction with one input, spending the first output only,
    and two outputs, the payment and the change. The UTXO list, the
    previous transaction's hex and the sender's address come from outside
    and are parameters; signing, finalizing and serializing the
    transaction are not part of this model. */
module Payment {
  import opened Common
  import opened Addresses
  import Hex

  datatype Utxo = Utxo(txid: string, vout: nat, value: nat)

  datatype TxInput = TxInput(hash: string, index: nat, nonWitnessUtxo: bytes)

  datatype TxOutput = TxOutput(address: Address, value: nat)

  datatype Transaction = Transaction(inputs: seq<TxInput>, outputs: seq<TxOutput>)

  /** Both failures make the source return null after a log line. */
  datatype BuildError = NoUtxos | InsufficientBalance

  const DefaultSendAmount: nat := 5000
  const DefaultFee: nat := 300

  /** The partially signed transaction being built: inputs and outputs in
      the order they are added. */
  class Psbt {
    var inputs: seq<TxInput>
    var outputs: seq<TxOutput>

    constructor ()
      ensures inputs == [] && outputs == []
    {
      inputs := [];
      outputs := [];
    }

    method AddInput(input: TxInput)
      modifies this
      ensures inputs == old(inputs) + [input]
      ensures outputs == old(outputs)
    {
      inputs := inputs + [input];
    }

    method AddOutput(output: TxOutput)
      modifies this
      ensures outputs == old(outputs) + [output]
      ensures inputs == old(inputs)
    {
      outputs := outputs + [output];
    }

    function Unsigned(): Transaction
      reads this
    {
      Transaction(inputs, outputs)
    }
  }

  function OrDefault(x: Option<nat>, d: nat): nat
  {
    if x.Some? then x.value else d
  }

  /** The sum of the output values. */
  function OutputTotal(outputs: seq<TxOutput>): nat
  {
    if outputs == [] then 0 else outputs[0].value + OutputTotal(outputs[1..])
  }

  /** The transaction `createTransaction` builds, as a value: only the first
      UTXO is considered, and it has to cover the amount and the fee. */
  function PlanTransaction(utxos: seq<Utxo>, toAddress: Address, sender: Address,
                           sendAmount: Option<nat>, fee: Option<nat>,
                           fetchTxHex: string -> string): Result<Transaction, BuildError>
  {
    var send, f := OrDefault(sendAmount, DefaultSendAmount), OrDefault(fee, DefaultFee);
    if |utxos| == 0 then Err(NoUtxos)
    else
      var utxo := utxos[0];
      if utxo.value < send + f then Err(InsufficientBalance)
      else
        Ok(Transaction(
          [TxInput(utxo.txid, utxo.vout, Hex.FromHex(fetchTxHex(utxo.txid)))],
          [TxOutput(toAddress, send), TxOutput(sender, utxo.value - send - f)]))
  }

  /** Builds the transaction step by step on a fresh Psbt. `fetchTxHex`
      stands for the explorer's raw-transaction lookup by id. */
  method CreateTransaction(utxos: seq<Utxo>, toAddress: Address, sender: Address,
                           sendAmount: Option<nat>, fee: Option<nat>,
                           fetchTxHex: string -> string) returns (r: Result<Transaction, BuildError>)
    ensures r == PlanTransaction(utxos, toAddress, sender, sendAmount, fee, fetchTxHex)
    ensures r == Err(NoUtxos) <==> utxos == []
    ensures r == Err(InsufficientBalance) <==>
            utxos != [] && utxos[0].value < OrDefault(sendAmount, DefaultSendAmount) + OrDefault(fee, DefaultFee)
    ensures r.Ok? ==> |r.value.inputs| == 1 && |r.value.outputs| == 2
  {
    var send := if sendAmount.Some? then sendAmount.value else DefaultSendAmount;
    var f := if fee.Some? then fee.value else DefaultFee;
    if |utxos| == 0 {
      return Err(NoUtxos);
    }
    var psbt := new Psbt();
    var utxo := utxos[0];
    if utxo.value < send + f {
      return Err(InsufficientBalance);
    }
    var input := TxInput(utxo.txid, utxo.vout, Hex.FromHex(fetchTxHex(utxo.txid)));
    psbt.AddInput(input);
    assert psbt.inputs == [input];
    psbt.AddOutput(TxOutput(toAddress, send));
    psbt.AddOutput(TxOutput(sender, utxo.value - send - f));
    assert psbt.outputs == [TxOutput(toAddress, send), TxOutput(sender, utxo.value - send - f)];
    r := Ok(psbt.Unsigned());
  }

  /** The input spends the first UTXO, carrying the previous transaction's
      bytes; the first output pays the amount to the recipient and the
      second returns the rest, less the fee, to the sender. Payment, change
      and fee add up to the value spent. */
  lemma PlanShape(utxos: seq<Utxo>, toAddress: Address, sender: Address,
                  sendAmount: Option<nat>, fee: Option<nat>, fetchTxHex: string -> string)
    requires PlanTransaction(utxos, toAddress, sender, sendAmount, fee, fetchTxHex).Ok?
    ensures var tx := PlanTransaction(utxos, toAddress, sender, sendAmount, fee, fetchTxHex).value;
      var send, f := OrDefault(sendAmount, DefaultSendAmount), OrDefault(fee, DefaultFee);
      && tx.inputs == [TxInput(utxos[0].txid, utxos[0].vout, Hex.FromHex(fetchTxHex(utxos[0].txid)))]
      && tx.outputs[0] == TxOutput(toAddress, send)
      && tx.outputs[1].address == sender
      && OutputTotal(tx.outputs) + f == utxos[0].value
  {
    var tx := PlanTransaction(utxos, toAddress, sender, sendAmount, fee, fetchTxHex).value;
    assert tx.outputs[1..][1..] == [];
    assert OutputTotal(tx.outputs[1..]) == tx.outputs[1].value;
  }

  /** Only the first UTXO matters: lists that agree on it give the same
      result, so a first UTXO that is too small fails however much the
      others hold. */
  lemma PlanUsesFirstOnly(u1: seq<Utxo>, u2: seq<Utxo>, toAddress: Address, sender: Address,
                          sendAmount: Option<nat>, fee: Option<nat>, fetchTxHex: string -> string)
    requires u1 != [] && u2 != [] && u1[0] == u2[0]
    ensures PlanTransaction(u1, toAddress, sender, sendAmount, fee, fetchTxHex) ==
            PlanTransaction(u2, toAddress, sender, sendAmount, fee, fetchTxHex)
  {
  }

  /** A small first UTXO followed by a large one: the defaults need 5300,
      the second UTXO would cover it, and the build still fails. */
  lemma FirstUtxoTooSmall(toAddress: Address, sender: Address, fetchTxHex: string -> string)
    ensures PlanTransaction([Utxo("a", 0, 1000), Utxo("b", 1, 1_000_000)], toAddress, sender,
                            None, None, fetchTxHex) == Err(InsufficientBalance)
  {
  }

  /** With the defaults, a 10000-satoshi UTXO pays 5000 and returns 4700. */
  lemma DefaultScenario(utxo: Utxo, rest: seq<Utxo>, toAddress: Address, sender: Address,
                        fetchTxHex: string -> string)
    requires utxo.value == 10000
    ensures var r := PlanTransaction([utxo] + rest, toAddress, sender, None, None, fetchTxHex);
      && r.Ok?
      && r.value.outputs == [TxOutput(toAddress, 5000), TxOutput(sender, 4700)]
  {
  }
}
