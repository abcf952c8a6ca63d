# Lightning sale contracts: a Dafny model

This project models the core of a small Bitcoin/Lightning sale-contract
backend. The core has two parts.

- **The contract deployer** (`src/backend/lightingDeployer.js`) has four
  request handlers:
  - *generate* validates a sale request. It draws a random contract id
    and payment hash and computes the lock time. It compiles either a
    2-of-3 escrow script or a hash-time-locked script (HTLC), and returns
    the contract record with the script hex and its P2SH testnet address;
  - *deploy* echoes a contract with a fresh payment secret and a one-day
    expiry;
  - *check status* derives a simulated payment status from the characters
    of the contract id. It also derives that status's timestamps and its
    Portuguese message;
  - *finalize* accepts one of three actions and answers with that
    action's message.
- **The payment helper** (`backend/functions.js`, `createTransaction`)
  builds, signs and serialises a transaction. It has one input, which
  spends the first UTXO. It has two outputs: the payment and the change.
  The model keeps the unsigned inputs and outputs (see "Left out").

The model works at three levels.

1. **Bytes.** This covers hex text and script numbers
   (`bitcoin.script.number.encode`, minimal as BIP-62 demands below 2^32
   in magnitude; from 2^32 on the library's 32-bit arithmetic wraps, see
   `ScriptNum.LibEncode` and "## Findings"). It also
   covers the script compiler (`bitcoin.script.compile`, including its
   small-number opcodes and PUSHDATA forms), together with a parser that
   reads scripts back.
2. **Script meaning.** A reference evaluator covers the opcodes the HTLC
   uses, plus the BIP-16 pay-to-script-hash rule. The CLTV check follows
   BIP-65. For the HTLC address, lemmas state which stacks of the given
   shapes (`[sig, x, cond, script]` and `[sig, cond, script]`) spend it.
   For the escrow address, one spending stack without a signature is
   exhibited.
3. **Handlers.** Each handler is a function from its request (plus the
   clock, the random bytes and HASH160 as parameters) to its answer or
   its error. `createTransaction` is an imperative method that builds a
   `Psbt` object. That method is also proved equal to a specification
   function.

Two behaviours of the code are modelled **as written**. Lemmas state
their consequences.

- **Escrow sales wrap the 2-of-3 script twice.** `bitcoinScript` becomes
  the P2SH output script of the 2-of-3 script, and the address is then
  the P2SH address of *that*. So `p2shRedeemScript` is the 23-byte
  wrapper. The lemmas `ScriptSemantics.MultisigAddressNeedsNoSignature`
  and `ContractRecord.MultisigRecordNeedsNoSignature` prove the
  consequence: the address is spent by the stack [2-of-3 script, wrapper]
  with no signature at all.
- **The HTLC compares the stack item with the 32-byte payment hash
  itself.** No hash opcode comes before OP_EQUALVERIFY. The value that
  unlocks the seller's branch is therefore the payment hash that the
  record publishes (`ContractRecord.HtlcRecordSellerSpend`).

Further facts about the code that the model keeps:
- UTXO choice: only `utxos[0]` is examined. A later UTXO is never used,
  however much it holds.
- HTLC: the seller's branch compares the item with the raw payment hash.
  No hash of the item is taken.
- Key lengths: no public-key length is checked.
- Finalize: it changes no state and reads nothing about the contract.
  Each call stamps its own `finalizedAt`, so two calls at the same clock
  reading give the same answer.
- Lifecycle: the code defines no status transitions, so none is
  modelled.

Files:
- `common.dfy` holds bytes, Option/Result, little-endian numbers and
  addresses.
- `hex.dfy` holds Buffer hex.
- `script_num.dfy` holds script numbers.
- `script.dfy` holds the script compiler and parser.
- `interpreter.dfy` holds the evaluator.
- `contract_scripts.dfy` holds the scripts built at lines 54-106.
- `script_semantics.dfy` holds what those scripts accept.
- `contract_record.dfy` holds generate.
- `contract_status.dfy` holds check status.
- `contract_actions.dfy` holds deploy and finalize.
- `payment.dfy` holds `createTransaction`.

## Model

| member | source | states |
|---|---|---|
| `Hex.ToHex` | src/backend/lightingDeployer.js:44 | `toString('hex')`: two digits per byte; specified by `Hex.ToHexIsLowerHex` and `Hex.FromHexToHex` |
| `Hex.FromHex` | src/backend/lightingDeployer.js:88 | `Buffer.from(text, 'hex')`: at most one byte per two characters; specified by `Hex.FromHexToHex` and `Hex.ToHexFromHex` |
| `Hex.FromHexToHex` | src/backend/lightingDeployer.js:88 | decoding the hex text of any bytes gives those bytes back, so the payment hash hex pushed into the HTLC is the random bytes |
| `Hex.ToHexFromHex` | src/backend/lightingDeployer.js:135-138 | lower-case even-length hex text decodes to half as many bytes and encodes back to the same text |
| `Hex.ToHexIsLowerHex` | src/backend/lightingDeployer.js:44 | `toString('hex')` always yields lower-case hex digits, two per byte |
| `Hex.DigitRoundTrip` | src/backend/lightingDeployer.js:44 | every digit written by the encoder is read back as its value |
| `ScriptNum.Encode` | src/backend/lightingDeployer.js:93 | the encoding of a lock time is minimal: no superfluous trailing byte |
| `ScriptNum.DecodeEncode` | src/backend/lightingDeployer.js:93 | decoding an encoded number gives the number back, negatives included |
| `ScriptNum.EncodeDecode` | src/backend/lightingDeployer.js:93 | every minimal encoding is the encoding of the number it denotes (both directions of the round trip) |
| `ScriptNum.EncodeLength` | src/backend/lightingDeployer.js:93 | a number below 0x80·256^(k-1) in magnitude encodes in at most k bytes |
| `ScriptNum.DecodeCheckedEncode` | src/backend/lightingDeployer.js:93-94 | the encoded lock time passes CLTV's 5-byte number read and yields the lock time |
| `ScriptNum.DecodeCheckedCanonical` | src/backend/lightingDeployer.js:93-94 | a push that CLTV reads as n under the minimal rule is exactly the encoding of n |
| `ScriptNum.Decode` | src/backend/lightingDeployer.js:93-94 | the number a script-number push denotes, as CLTV reads it; specified by `ScriptNum.DecodeEncode` and `ScriptNum.EncodeDecode` |
| `ScriptNum.LibEncode` | src/backend/lightingDeployer.js:93 | the bytes `bitcoin.script.number.encode` writes with its 32-bit arithmetic, never more than five; related to `Encode` by `LibEncodeAgrees` and `LibEncodeWraps` |
| `ScriptNum.LibEncodeAgrees` | src/backend/lightingDeployer.js:93 | below 2^32 in magnitude the library's bytes are exactly the script-number encoding |
| `ScriptNum.LibEncodeHigh` | src/backend/lightingDeployer.js:93 | from 2^32 on the library writes the four low bytes of the number and a zero |
| `ScriptNum.LibEncodeWraps` | src/backend/lightingDeployer.js:93 | from 2^32 on the library's bytes denote the number modulo 2^32, so they are not its encoding |
| `ScriptNum.LibEncodeWorkedExample` | src/backend/lightingDeployer.js:93 | the library's bytes for 4860000000 are `00 b7 ad 21 00`: consensus reads them as 565032704, and the minimal-data rule refuses them |
| `Script.Serialize` | src/backend/lightingDeployer.js:86-99 | `bitcoin.script.compile`: each item as its opcode or its shortest push; specified by `Script.ParseSerialize`, `Script.SerializeInjective` and `Script.SerializeAppend` |
| `Script.Parse` | src/backend/lightingDeployer.js:86-99 | reads compiled bytes back into items; the left inverse of `Serialize` on canonical items (`Script.ParseSerialize`) |
| `Script.ParseSerialize` | src/backend/lightingDeployer.js:86-99 | compiled canonical items fit the compiler's 4-byte length field and read back as the same items |
| `Script.SerializeInjective` | src/backend/lightingDeployer.js:74-78 | two canonical scripts with the same bytes are the same script |
| `Script.SerializeAppend` | src/backend/lightingDeployer.js:86-99 | compiling a concatenation is concatenating the compiled parts |
| `ContractScripts.LockTimeExpiry` | src/backend/lightingDeployer.js:50-52 | the lock time minus the hours in seconds is the current time in whole seconds, floored |
| `ContractScripts.Compile` | src/backend/lightingDeployer.js:55-100 | a compiled script fits the compiler, and its type is the multisig type exactly when `useMultisig` holds |
| `ContractScripts.CompileSucceeds` | src/backend/lightingDeployer.js:55-100 | keys and hash below 2^32 bytes and a lock time below 2^39 in magnitude always compile |
| `ContractScripts.ScriptTypeName` | src/backend/lightingDeployer.js:60-81 | the `scriptType` strings 'p2sh_multisig_2_of_3' and 'htlc_with_timelock'; specified by `ScriptTypeNamesDistinct` and by `Compile`, whose type follows `useMultisig` |
| `ContractScripts.ScriptTypeNamesDistinct` | src/backend/lightingDeployer.js:56-81 | the two script type names are distinct |
| `ContractScripts.MultisigScript` | src/backend/lightingDeployer.js:63-70 | the 2-of-3 item list; specified by `ContractScripts.MultisigBytes` and `ContractScripts.MultisigInjective` |
| `ContractScripts.P2shScript` | src/backend/lightingDeployer.js:73-78 | the P2SH output item list; specified by `ContractScripts.P2shBytes` and `ScriptSemantics.P2shScriptAccepts` |
| `ContractScripts.HtlcScript` | src/backend/lightingDeployer.js:86-99 | the HTLC item list; specified by `ContractScripts.HtlcCanonical`, `ContractScripts.HtlcLockTimeDecodes`, `ContractScripts.HtlcInjective`, `ScriptSemantics.HtlcRevealAccepts` and `ScriptSemantics.HtlcRefundAccepts` |
| `ContractScripts.MultisigBytes` | src/backend/lightingDeployer.js:63-70 | for 2..75-byte keys the 2-of-3 script is 0x52, the three length-prefixed keys in buyer, seller, escrow order, then 0x53 0xae |
| `ContractScripts.P2shBytes` | src/backend/lightingDeployer.js:73-78 | the P2SH script is the 23 bytes 0xa9 0x14 hash 0x87 |
| `ContractScripts.MultisigInjective` | src/backend/lightingDeployer.js:63-70 | the 2-of-3 bytes determine the three keys and their order |
| `ContractScripts.LockTimePushIsData` | src/backend/lightingDeployer.js:93 | a lock time above 16 is compiled as a data push, not a small-number opcode |
| `ContractScripts.HtlcCanonical` | src/backend/lightingDeployer.js:86-99 | with data-sized parameters every item of the HTLC reads back unchanged |
| `ContractScripts.HtlcLockTimeDecodes` | src/backend/lightingDeployer.js:86-99 | the HTLC bytes parse into its 12 items, OP_ELSE at position 5, and the push after it decodes to the lock time under CLTV’s rule |
| `ContractScripts.HtlcInjective` | src/backend/lightingDeployer.js:86-99 | the HTLC bytes determine the payment hash, both keys and the lock time |
| `ContractScripts.LargeHoursWrap` | src/backend/lightingDeployer.js:50-93 | 850000 hours at the clock reading 1.8e12 ms give the lock time 4860000000; the library's bytes for it denote 565032704, the script-number encoding keeps it |
| `ScriptSemantics.RunReveal` | src/backend/lightingDeployer.js:88-91 | the seller branch succeeds exactly when the item equals the payment hash, leaving the seller's signature check |
| `ScriptSemantics.RunRefundWith` | src/backend/lightingDeployer.js:93-97 | the buyer branch with any push in front of CLTV succeeds exactly when BIP-65's check passes for the number CLTV reads from the push, leaving the buyer's signature check |
| `ScriptSemantics.LibraryRefundOpensEarly` | src/backend/lightingDeployer.js:50-97 | with the library's push for 4860000000, under consensus rules, the buyer branch succeeds for any spend whose nLockTime is 565032704 or later and whose input is not final, while the branch with `Encode`'s push fails for every nLockTime, an unsigned 32-bit field; the minimal-data rule refuses the library's push |
| `ScriptSemantics.RunRefund` | src/backend/lightingDeployer.js:93-97 | the buyer branch succeeds exactly when BIP-65's lock-time check passes, leaving the buyer's signature check |
| `ScriptSemantics.BranchesSkippable` | src/backend/lightingDeployer.js:86-99 | neither branch holds a conditional opcode or an oversized push, so the branch not taken is skipped unchanged |
| `ScriptSemantics.RunHtlc` | src/backend/lightingDeployer.js:86-99 | running the HTLC is running OP_IF, the seller branch, OP_ELSE, the buyer branch and OP_ENDIF in turn |
| `ScriptSemantics.HtlcRevealAccepts` | src/backend/lightingDeployer.js:87-92 | with a true condition the HTLC accepts iff the item is the payment hash itself and the signature is the seller's |
| `ScriptSemantics.HtlcRefundAccepts` | src/backend/lightingDeployer.js:92-98 | with a false condition the HTLC accepts iff the lock time is met and the signature is the buyer's |
| `ScriptSemantics.P2shScriptAccepts` | src/backend/lightingDeployer.js:74-78 | the P2SH output script accepts iff the top item hashes to the committed hash |
| `ScriptSemantics.SpendP2shOf` | src/backend/lightingDeployer.js:103-106 | spending the P2SH address of a canonical script with its bytes on top succeeds iff the script accepts the rest |
| `ScriptSemantics.MultisigAddressNeedsNoSignature` | src/backend/lightingDeployer.js:63-78 | the escrow contract's address is spent by [2-of-3 bytes, wrapper bytes] whatever the signature checker says |
| `ScriptSemantics.HtlcAddressReveal` | src/backend/lightingDeployer.js:86-106 | the HTLC address is spent with [sig, x, true, script] iff x is the payment hash and sig is the seller's |
| `ScriptSemantics.HtlcAddressRefund` | src/backend/lightingDeployer.js:86-106 | the HTLC address is spent with [sig, false, script] iff the lock time is met and sig is the buyer's |
| `Addresses.P2shAddress` | src/backend/lightingDeployer.js:103-106 | `bitcoin.payments.p2sh`'s testnet address of a script (version 0xc4, HASH160 of the bytes), stored as `bitcoinAddress` at line 137; specified by `ContractRecord.RecordScriptFields` (the record's address is that of its `scriptHex`) and `ScriptSemantics.SpendP2shOf` (what spending it requires) |
| `ContractRecord.Generate` | src/backend/lightingDeployer.js:16-148 | the generate handler; specified by `GenerateRejects`, `GenerateSucceeds`, `RecordFields`, `RecordLockTime`, `RecordScriptFields`, `HtlcRecordScript` and `MultisigRecordScript` |
| `ContractRecord.GenerateRejects` | src/backend/lightingDeployer.js:34-41 | 'missing parameters' exactly when a key, node id or the amount is absent, empty or zero; 'escrow key required' exactly when the fields are present, multisig is asked for and the escrow key is absent or empty; neither depends on the random bytes or the clock |
| `ContractRecord.GenerateSucceeds` | src/backend/lightingDeployer.js:54-148 | a valid request whose keys compile and whose lock time is in CLTV's range always yields a record, not the 500 answer |
| `ContractRecord.SaleKindName` | src/backend/lightingDeployer.js:113 | the record `type` strings 'multisig_sale' and 'simple_sale'; specified by `RecordFields`, which ties the name to `useMultisig` |
| `ContractRecord.RecordFields` | src/backend/lightingDeployer.js:109-132 | the id is the 32 lower-case hex digits of the random bytes; status 'created'; the kind, its type name ('multisig_sale' or 'simple_sale') and the escrow entry follow `useMultisig`; the parties and amount come from the request; the description is the request's when given, the default when absent or empty; the hours are the request's when present, 24 when absent |
| `ContractRecord.RecordLockTime` | src/backend/lightingDeployer.js:29-52 | the lock time is now in whole seconds plus the requested hours times 3600, and plus 86400 when no hours are given |
| `ContractRecord.RecordScriptFields` | src/backend/lightingDeployer.js:133-139 | `p2shRedeemScript` equals `scriptHex`; the payment hash is 64 hex digits of the random bytes; the address is the testnet P2SH address of the bytes `scriptHex` denotes |
| `ContractRecord.HtlcRecordScript` | src/backend/lightingDeployer.js:80-99 | without escrow, `scriptHex` denotes the HTLC over the random hash bytes, the seller and buyer key bytes and the record's lock time |
| `ContractRecord.MultisigRecordScript` | src/backend/lightingDeployer.js:58-78 | with escrow, `scriptHex` denotes the 23-byte P2SH script of the 2-of-3 script, and the address hashes it once more |
| `ContractRecord.MultisigRecordNeedsNoSignature` | src/backend/lightingDeployer.js:58-138 | the address of every escrow record is spendable with no signature by anyone who knows the three keys |
| `ContractRecord.HtlcRecordSellerSpend` | src/backend/lightingDeployer.js:86-138 | with the record's own published payment hash as the item and a true condition, the record's address is spent exactly when the signature is the seller's (that any other item fails is `ScriptSemantics.HtlcAddressReveal`) |
| `ContractRecord.HtlcRecordBuyerSpend` | src/backend/lightingDeployer.js:86-138 | the buyer's branch of a record's address opens iff the record's lock time is met and the signature is the buyer's |
| `ContractStatus.StatusMessage` | src/backend/lightingDeployer.js:288-301 | `getStatusMessage`; specified by `ContractStatus.StatusMessages` |
| `ContractStatus.CheckPaymentStatus` | src/backend/lightingDeployer.js:236-285 | the status-check handler; specified by `CheckRejects`, `StatusBands`, `StatusIgnoresOrder`, `ReportTimeline` and `ReportMessage` |
| `ContractStatus.Name` | src/backend/lightingDeployer.js:255 | the four `mockStates` names, in index order; specified by `NameRoundTrip`, which reads each name back with `StatusFromName` |
| `ContractStatus.StatusFromName` | src/backend/lightingDeployer.js:289-297 | a recognised name is the name of the status it is read as |
| `ContractStatus.NameRoundTrip` | src/backend/lightingDeployer.js:255 | status names read back to their status, and only those names are recognised |
| `ContractStatus.StatusMessages` | src/backend/lightingDeployer.js:288-300 | each status has its own message, none the unknown one; exactly the texts that are not status names get 'Status desconhecido.' |
| `ContractStatus.IdSum` | src/backend/lightingDeployer.js:252 | the `charCodeAt` reduce over the id, by code point; specified by `IdSumAppend` and `IdSumPermutation` |
| `ContractStatus.IdSumAppend` | src/backend/lightingDeployer.js:252 | the character-code sum of a concatenation is the sum of the parts' sums |
| `ContractStatus.IdSumPermutation` | src/backend/lightingDeployer.js:252 | ids with the same characters, in any order, have the same character-code sum |
| `ContractStatus.MockStateIndex` | src/backend/lightingDeployer.js:256 | the index is within the four-entry table and is the band of 25 that the sum's last two digits fall in |
| `ContractStatus.CheckRejects` | src/backend/lightingDeployer.js:244-246 | the check fails exactly when the id is absent or empty |
| `ContractStatus.StatusBands` | src/backend/lightingDeployer.js:252-257 | an id's status is pending, received, confirmed or settled as its sum mod 100 is below 25, below 50, below 75 or above |
| `ContractStatus.StatusIgnoresOrder` | src/backend/lightingDeployer.js:252-276 | two ids with the same characters in any order get the same report apart from the echoed id: the same status, timestamps and message |
| `ContractStatus.ReportTimeline` | src/backend/lightingDeployer.js:260-275 | deployed an hour ago; received iff not pending, confirmed iff confirmed or settled, settled iff settled; each later event implies the earlier ones and they are in time order before now |
| `ContractStatus.ReportMessage` | src/backend/lightingDeployer.js:276 | the report's message is its status's own message, never the unknown one |
| `ContractActions.Deploy` | src/backend/lightingDeployer.js:155-230 | the deploy handler; specified by `DeployRejects`, `DeployEcho` and `DeployGenerated` |
| `ContractActions.Finalize` | src/backend/lightingDeployer.js:307-354 | the finalize handler; specified by `FinalizeRejects` and `FinalizeAccepts` |
| `ContractActions.DeployRejects` | src/backend/lightingDeployer.js:161-165 | 'invalid contract data' exactly when the contract or its id is missing; the 500 answer exactly when the transaction or script part is missing |
| `ContractActions.DeployEcho` | src/backend/lightingDeployer.js:178-222 | the answer echoes id, payment hash, amount and address, carries a 64-digit hex secret of the random bytes and expires 86400000 ms after the clock reading |
| `ContractActions.DeployGenerated` | src/backend/lightingDeployer.js:160-222 | every generated record deploys, and the answer carries the record's id, payment hash, amount and address |
| `ContractActions.ParseAction` | src/backend/lightingDeployer.js:320-322 | an accepted action text is that action's name |
| `ContractActions.ActionRoundTrip` | src/backend/lightingDeployer.js:320-322 | the three names read back to their actions, and exactly those three texts are accepted |
| `ContractActions.ActionMessage` | src/backend/lightingDeployer.js:328-338 | the three Portuguese result messages; specified by `ActionMessagesDistinct` and `FinalizeAccepts`, which gives each action its message |
| `ContractActions.ActionMessagesDistinct` | src/backend/lightingDeployer.js:328-338 | the three result messages are pairwise distinct |
| `ContractActions.FinalizeRejects` | src/backend/lightingDeployer.js:313-322 | 'id and action required' exactly when either is absent or empty; 'invalid action' exactly when both are given and the action is not one of the three |
| `ContractActions.FinalizeAccepts` | src/backend/lightingDeployer.js:313-347 | any non-empty id with a known action succeeds, echoing both with the action's message, whatever the contract's state |
| `Payment.Psbt.constructor` | backend/functions.js:26 | a new PSBT has no inputs and no outputs |
| `Payment.Psbt.AddInput` | backend/functions.js:35-42 | the input is appended and the outputs are unchanged |
| `Payment.Psbt.AddOutput` | backend/functions.js:44-52 | the output is appended and the inputs are unchanged |
| `Payment.PlanTransaction` | backend/functions.js:19-52 | the transaction `createTransaction` builds, as a value; specified by `PlanShape`, `PlanUsesFirstOnly`, `FirstUtxoTooSmall` and `DefaultScenario` |
| `Payment.CreateTransaction` | backend/functions.js:19-63 | the built transaction equals `PlanTransaction`; it fails for no UTXOs exactly when the list is empty, for insufficient balance exactly when the first UTXO is below amount plus fee (defaults 5000 and 300), and otherwise has one input and two outputs |
| `Payment.PlanShape` | backend/functions.js:35-52 | the input spends the first UTXO with the fetched previous transaction; output 1 pays the amount to the recipient, output 2 goes to the sender, and outputs plus fee equal the UTXO's value |
| `Payment.PlanUsesFirstOnly` | backend/functions.js:28-33 | lists that agree on their first UTXO give the same result |
| `Payment.FirstUtxoTooSmall` | backend/functions.js:28-33 | a 1000-sat first UTXO fails even when the second holds 1000000 |
| `Payment.DefaultScenario` | backend/functions.js:19-52 | with the defaults a 10000-sat first UTXO pays 5000 and returns 4700 in change |

## Left out

- HTTP method checks (405 answers), the response objects and status codes, and logging are not modelled. Each handler returns its answer or its error as a value.
- Clock readings, random bytes and HASH160 are parameters. Dates are milliseconds since the epoch; `toISOString` text is not modelled.
- HASH160, SHA-256 and signature verification are uninterpreted functions. Signing, `finalizeAllInputs`, `extractTransaction().toHex()` and PSBT encoding (functions.js:54-62) are not modelled; `CreateTransaction` returns the unsigned inputs and outputs.
- Addresses are a version byte and a 20-byte hash. Base58Check text, and turning `toAddress` text into an output script (which may throw), are not modelled. The sender's P2PKH address (functions.js:9) is a parameter.
- The UTXO list (functions.js:20) and the raw-transaction lookup (functions.js:39) are network fetches. They are parameters, and fetch failures are not modelled.
- The LND client (lines 168-172) and the mock payment request text (line 206) are not modelled.
- `ContractScripts.LockTimeExpiry`: lock-time hours are integers; fractional hours (a JSON number such as 1.5) are not modelled.
- `ScriptNum.Encode`: the HTLC is compiled with the script-number encoding of the whole lock time. `bitcoin.script.number.encode` uses 32-bit arithmetic, modelled as `ScriptNum.LibEncode`. The two agree below 2^32 in magnitude (`ScriptNum.LibEncodeAgrees`) and differ from 2^32 on (see Findings). Unix times reach 2^32 in February 2106, and a request reaches that range sooner with a large `lockTimeHours`: about 690000 hours or more at a clock reading of 2026.
- `ContractScripts.HtlcLockTimeDecodes`: for a lock time of 2^32 or more in magnitude it describes the bytes of `ScriptNum.Encode`, not the bytes the program emits. The same holds for the other lemmas about HTLC bytes, and `ContractRecord.GenerateSucceeds` allows such lock times (up to 2^39).
- `ContractRecord.HtlcRecordBuyerSpend`: for a record lock time of 2^32 or more it describes the bytes of `ScriptNum.Encode`, not the bytes the program emits. With the program's bytes, read under consensus rules, the buyer's branch checks the lock time modulo 2^32 (`ScriptNum.LibEncodeWraps`, `ScriptSemantics.RunRefundWith`); the worked example is `ScriptSemantics.LibraryRefundOpensEarly`.
- `ContractRecord.Generate`: `useMultisig` is a boolean. Other truthy or falsy JSON values are not modelled. `amount` is an integer or absent; NaN, strings and other JSON types are not modelled.
- `ContractRecord.Generate`: the checks `bitcoin.payments.p2sh` makes on its redeem output are not modelled. Its exceptions would be the 500 answer.
- `Hex.FromHex`: this models `Buffer.from(text, 'hex')` for characters in the basic range: it decodes pairs and stops at the first invalid pair. Node's treatment of non-ASCII code units is not modelled.
- `ContractStatus.IdSum`: characters are summed by code point. JavaScript's `charCodeAt` sums UTF-16 code units, which differs for characters outside the Basic Multilingual Plane.
- The evaluator in `interpreter.dfy` covers only the opcodes the HTLC uses, plus the P2SH rule. OP_CHECKMULTISIG evaluation, opcode and stack-size limits, and the signature-hash algorithm are not part of this model.
- `Payment.CreateTransaction`: amounts and fees are natural numbers; negative or fractional values are not modelled. `backend/index.js` passes `amount || 5000` and collapses both failures into one answer; index.js is not part of this model.
- `Payment.CreateTransaction`: two library exceptions are not modelled. `psbt.addInput` throws when the transaction in `nonWitnessUtxo` does not have the id `utxo.txid`. `extractTransaction` throws when the fee rate is too high. Either would reject the promise `createTransaction` returns.

## Findings

| source | as written | input that shows it | evidently intended | confidence | as-written member | corrected member |
|---|---|---|---|---|---|---|
| src/backend/lightingDeployer.js:50-93 | the lock time, which no check bounds, is encoded by `bitcoin.script.number.encode`, whose 32-bit arithmetic wraps from 2^32 on | `lockTimeHours` 850000 at the clock reading 1800000000000 ms: the lock time is 4860000000, but the pushed bytes denote 565032704, a time in 1987, so under consensus rules the buyer's refund branch opens for any spend whose time lock is 565032704 or later and whose input is not final; under the minimal-data rule of standard relay the push is non-minimal and the branch is refused | the CLTV push denotes the computed lock time (or the request is refused) | not executed; medium, since it rests on the library's published algorithm | `ScriptNum.LibEncode`, `ScriptNum.LibEncodeWraps`, `ContractScripts.LargeHoursWrap`, `ScriptSemantics.LibraryRefundOpensEarly` | `ScriptNum.Encode`, `ScriptNum.DecodeEncode` |
