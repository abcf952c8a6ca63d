/** A reference evaluator for the opcodes the contract scripts use, with
    Bitcoin's consensus meaning, so that lemmas can say which spends a
    compiled script accepts. Signature checking, hashing and the spending
    transaction's lock time are taken from the environment. Opcodes outside
    this set make evaluation fail. */
module Interpreter {
  import opened Common
  import opened Script
  import ScriptNum

  /** A transaction's nLockTime, an unsigned 32-bit field. */
  type TxLockTime = t: int | 0 <= t < 0x1_0000_0000

  /** What a script can observe outside itself. `checkSig(sig, key)` stands
      for signature verification against the spending transaction. */
  datatype Env = Env(
    hash160: bytes -> Digest20,
    checkSig: (bytes, bytes) -> bool,
    txLockTime: TxLockTime,
    inputFinal: bool)

  /** The main stack (top last) and the stack of OP_IF conditions. */
  datatype Machine = Machine(stack: seq<bytes>, exec: seq<bool>)

  /** No pushed element may exceed 520 bytes. */
  const MaxElementSize: nat := 520
  /** Lock times below this are block heights, from it on Unix times. */
  const LockTimeThreshold: nat := 500_000_000
  /** OP_CHECKLOCKTIMEVERIFY reads numbers of up to five bytes (BIP-65). */
  const LockTimeNumSize: nat := 5

  /** False for any run of zero bytes, also when the last is 0x80 (negative zero). */
  function CastToBool(v: bytes): bool
  {
    if v == [] then false
    else if v[0] != 0 then !(|v| == 1 && v[0] == 0x80)
    else CastToBool(v[1..])
  }

  function Bool(b: bool): bytes
  {
    if b then [1] else []
  }

  predicate Executing(m: Machine)
  {
    false !in m.exec
  }

  function Toggle(exec: seq<bool>): seq<bool>
    requires exec != []
  {
    exec[..|exec| - 1] + [!exec[|exec| - 1]]
  }

  /** The lock-time check of BIP-65 for a number already read from the stack. */
  predicate LockTimeSatisfied(env: Env, lockTime: int)
  {
    && lockTime >= 0
    && ((lockTime < LockTimeThreshold as int) == (env.txLockTime < LockTimeThreshold))
    && lockTime <= env.txLockTime
    && !env.inputFinal
  }

  /** One opcode in an executed branch. */
  function ExecOp(env: Env, c: byte, m: Machine): Option<Machine>
  {
    var s, n := m.stack, |m.stack|;
    if c == OP_0 then Some(m.(stack := s + [[]]))
    else if c == OP_1NEGATE then Some(m.(stack := s + [[0x81]]))
    else if OP_1 <= c <= OP_16 then Some(m.(stack := s + [[c - OP_RESERVED]]))
    else if c == OP_IF then
      if n < 1 then None else Some(Machine(s[..n - 1], m.exec + [CastToBool(s[n - 1])]))
    else if c == OP_ELSE then
      if m.exec == [] then None else Some(m.(exec := Toggle(m.exec)))
    else if c == OP_ENDIF then
      if m.exec == [] then None else Some(m.(exec := m.exec[..|m.exec| - 1]))
    else if c == OP_DROP then
      if n < 1 then None else Some(m.(stack := s[..n - 1]))
    else if c == OP_EQUAL then
      if n < 2 then None else Some(m.(stack := s[..n - 2] + [Bool(s[n - 2] == s[n - 1])]))
    else if c == OP_EQUALVERIFY then
      if n < 2 || s[n - 2] != s[n - 1] then None else Some(m.(stack := s[..n - 2]))
    else if c == OP_HASH160 then
      if n < 1 then None else Some(m.(stack := s[..n - 1] + [env.hash160(s[n - 1])]))
    else if c == OP_CHECKSIG then
      if n < 2 then None else Some(m.(stack := s[..n - 2] + [Bool(env.checkSig(s[n - 2], s[n - 1]))]))
    else if c == OP_CHECKLOCKTIMEVERIFY then
      if n < 1 then None
      else
        match ScriptNum.DecodeChecked(s[n - 1], LockTimeNumSize, false)
        case None => None
        case Some(lockTime) => if LockTimeSatisfied(env, lockTime) then Some(m) else None
    else None
  }

  /** One item. Push sizes are checked in skipped branches too; there only
      OP_IF, OP_ELSE and OP_ENDIF do anything. */
  function Step(env: Env, it: Item, m: Machine): Option<Machine>
  {
    if it.Push? && |it.data| > MaxElementSize then None
    else if !Executing(m) then
      match it
      case Push(_) => Some(m)
      case Op(c) =>
        if c == OP_IF then Some(m.(exec := m.exec + [false]))
        else if c == OP_ELSE then Some(m.(exec := Toggle(m.exec)))
        else if c == OP_ENDIF then Some(m.(exec := m.exec[..|m.exec| - 1]))
        else Some(m)
    else
      match it
      case Push(d) => Some(m.(stack := m.stack + [d]))
      case Op(c) => ExecOp(env, c, m)
  }

  function Run(env: Env, script: seq<Item>, m: Machine): Option<Machine>
    decreases |script|
  {
    if script == [] then Some(m)
    else
      match Step(env, script[0], m)
      case None => None
      case Some(m') => Run(env, script[1..], m')
  }

  /** A script succeeds on a stack when it runs to the end with every OP_IF
      closed and a true value on top. */
  predicate Accepts(env: Env, script: seq<Item>, stack: seq<bytes>)
  {
    match Run(env, script, Machine(stack, []))
    case None => false
    case Some(m) => m.exec == [] && |m.stack| > 0 && CastToBool(m.stack[|m.stack| - 1])
  }

  /** BIP-16: `stack` is what the spender's push-only unlocking script
      leaves. The output script must accept it; then its top element is
      read as the redeem script, which must accept the rest. */
  predicate SpendsP2sh(env: Env, scriptPubKey: seq<Item>, stack: seq<bytes>)
  {
    && (forall i :: 0 <= i < |stack| ==> |stack[i]| <= MaxElementSize)
    && Accepts(env, scriptPubKey, stack)
    && |stack| > 0
    && match Parse(stack[|stack| - 1])
       case None => false
       case Some(redeem) => Accepts(env, redeem, stack[..|stack| - 1])
  }

  /** The steps the contract scripts take, one opcode at a time, on a
      stack written as its untouched part followed by the operands. */
  lemma StepPush(env: Env, d: bytes, m: Machine)
    requires Executing(m) && |d| <= MaxElementSize
    ensures Step(env, Push(d), m) == Some(Machine(m.stack + [d], m.exec))
  {
  }

  lemma StepIf(env: Env, s: seq<bytes>, c: bytes)
    ensures Step(env, Op(OP_IF), Machine(s + [c], [])) == Some(Machine(s, [CastToBool(c)]))
  {
    var t := s + [c];
    assert t[..|t| - 1] == s && t[|t| - 1] == c;
    assert [] + [CastToBool(c)] == [CastToBool(c)];
  }

  lemma StepElse(env: Env, s: seq<bytes>, b: bool)
    ensures Step(env, Op(OP_ELSE), Machine(s, [b])) == Some(Machine(s, [!b]))
  {
    assert Toggle([b]) == [] + [!b] == [!b];
  }

  lemma StepEndif(env: Env, s: seq<bytes>, b: bool)
    ensures Step(env, Op(OP_ENDIF), Machine(s, [b])) == Some(Machine(s, []))
  {
  }

  lemma StepDrop(env: Env, s: seq<bytes>, a: bytes, exec: seq<bool>)
    requires false !in exec
    ensures Step(env, Op(OP_DROP), Machine(s + [a], exec)) == Some(Machine(s, exec))
  {
    var t := s + [a];
    assert t[..|t| - 1] == s;
  }

  lemma StepEqual(env: Env, s: seq<bytes>, a: bytes, b: bytes, exec: seq<bool>)
    requires false !in exec
    ensures Step(env, Op(OP_EQUAL), Machine(s + [a, b], exec)) == Some(Machine(s + [Bool(a == b)], exec))
  {
    var t := s + [a, b];
    assert t[..|t| - 2] == s && t[|t| - 2] == a && t[|t| - 1] == b;
  }

  lemma StepEqualVerify(env: Env, s: seq<bytes>, a: bytes, b: bytes, exec: seq<bool>)
    requires false !in exec
    ensures Step(env, Op(OP_EQUALVERIFY), Machine(s + [a, b], exec)) ==
      if a == b then Some(Machine(s, exec)) else None
  {
    var t := s + [a, b];
    assert t[..|t| - 2] == s && t[|t| - 2] == a && t[|t| - 1] == b;
  }

  lemma StepHash160(env: Env, s: seq<bytes>, a: bytes, exec: seq<bool>)
    requires false !in exec
    ensures Step(env, Op(OP_HASH160), Machine(s + [a], exec)) == Some(Machine(s + [env.hash160(a)], exec))
  {
    var t := s + [a];
    assert t[..|t| - 1] == s && t[|t| - 1] == a;
  }

  lemma StepCheckSig(env: Env, s: seq<bytes>, a: bytes, b: bytes, exec: seq<bool>)
    requires false !in exec
    ensures Step(env, Op(OP_CHECKSIG), Machine(s + [a, b], exec)) ==
      Some(Machine(s + [Bool(env.checkSig(a, b))], exec))
  {
    var t := s + [a, b];
    assert t[..|t| - 2] == s && t[|t| - 2] == a && t[|t| - 1] == b;
  }

  lemma StepLockTime(env: Env, s: seq<bytes>, a: bytes, lockTime: int, exec: seq<bool>)
    requires false !in exec
    requires ScriptNum.DecodeChecked(a, LockTimeNumSize, false) == Some(lockTime)
    ensures Step(env, Op(OP_CHECKLOCKTIMEVERIFY), Machine(s + [a], exec)) ==
      if LockTimeSatisfied(env, lockTime) then Some(Machine(s + [a], exec)) else None
  {
    var t := s + [a];
    assert t[|t| - 1] == a;
  }

  /** Running a script is taking its first step and running the rest. */
  lemma RunCons(env: Env, it: Item, rest: seq<Item>, m: Machine)
    ensures Run(env, [it] + rest, m) ==
      match Step(env, it, m)
      case None => None
      case Some(m') => Run(env, rest, m')
  {
    assert ([it] + rest)[0] == it && ([it] + rest)[1..] == rest;
  }

  /** Running two scripts one after the other is running their concatenation. */
  lemma {:induction false} RunAppend(env: Env, a: seq<Item>, b: seq<Item>, m: Machine)
    ensures Run(env, a + b, m) ==
      match Run(env, a, m)
      case None => None
      case Some(m') => Run(env, b, m')
  {
    if a == [] {
      assert a + b == b;
    } else {
      assert (a + b)[0] == a[0] && (a + b)[1..] == a[1..] + b;
      match Step(env, a[0], m)
      case None =>
      case Some(m1) => RunAppend(env, a[1..], b, m1);
    }
  }

  /** Items a skipped branch passes over without effect. */
  predicate Skippable(script: seq<Item>)
  {
    forall i :: 0 <= i < |script| ==>
      match script[i]
      case Push(d) => |d| <= MaxElementSize
      case Op(c) => c != OP_IF && c != OP_ELSE && c != OP_ENDIF
  }

  /** In a branch that is not taken, such items leave the machine as it is. */
  lemma {:induction false} RunSkipped(env: Env, script: seq<Item>, m: Machine)
    requires !Executing(m) && Skippable(script)
    ensures Run(env, script, m) == Some(m)
  {
    if script != [] {
      assert Skippable(script[1..]) by {
        forall i | 0 <= i < |script[1..]| ensures script[1..][i] == script[i + 1] { }
      }
      assert Step(env, script[0], m) == Some(m);
      RunSkipped(env, script[1..], m);
    }
  }
}
