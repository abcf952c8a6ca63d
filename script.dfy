/** Scripts as data: a script is a sequence of opcodes and data pushes, as
    the arrays handed to `bitcoin.script.compile`. `Serialize` is that
    compiler: a push of 1..75 bytes is a length byte and the data, longer
    pushes use OP_PUSHDATA1/2/4, and data that a small-number opcode can
    express (empty, 1..16, -1) becomes that opcode. `Parse` reads a script
    back the way the script interpreter does. */
module Script {
  import opened Common

  const OP_0: byte := 0x00
  const OP_PUSHDATA1: byte := 0x4c
  const OP_PUSHDATA2: byte := 0x4d
  const OP_PUSHDATA4: byte := 0x4e
  const OP_1NEGATE: byte := 0x4f
  /** OP_n is OP_RESERVED + n for n in 1..16. */
  const OP_RESERVED: byte := 0x50
  const OP_1: byte := 0x51
  const OP_2: byte := 0x52
  const OP_3: byte := 0x53
  const OP_16: byte := 0x60
  const OP_IF: byte := 0x63
  const OP_ELSE: byte := 0x67
  const OP_ENDIF: byte := 0x68
  const OP_DROP: byte := 0x75
  const OP_EQUAL: byte := 0x87
  const OP_EQUALVERIFY: byte := 0x88
  const OP_HASH160: byte := 0xa9
  const OP_CHECKSIG: byte := 0xac
  const OP_CHECKMULTISIG: byte := 0xae
  const OP_CHECKLOCKTIMEVERIFY: byte := 0xb1

  datatype Item = Op(code: byte) | Push(data: bytes)

  /** A push length has to fit the 4-byte length field of OP_PUSHDATA4;
      the compiler throws on anything longer. */
  const PushLimit: nat := 0x1_0000_0000

  predicate EncodableItem(it: Item)
  {
    it.Op? || |it.data| < PushLimit
  }

  predicate Encodable(items: seq<Item>)
  {
    forall i :: 0 <= i < |items| ==> EncodableItem(items[i])
  }

  /** The opcode the compiler writes instead of a push of `data`, if any. */
  function MinimalOp(data: bytes): Option<byte>
  {
    if |data| == 0 then Some(OP_0)
    else if |data| != 1 then None
    else if 1 <= data[0] <= 16 then Some(OP_RESERVED + data[0])
    else if data[0] == 0x81 then Some(OP_1NEGATE)
    else None
  }

  /** The length field in front of pushed data. */
  function PushPrefix(len: nat): bytes
    requires len < PushLimit
  {
    if len < OP_PUSHDATA1 as nat then [len]
    else if len <= 0xff then [OP_PUSHDATA1, len]
    else if len <= 0xffff then [OP_PUSHDATA2] + LEFixed(len, 2)
    else [OP_PUSHDATA4] + LEFixed(len, 4)
  }

  function ItemBytes(it: Item): bytes
    requires EncodableItem(it)
  {
    match it
    case Op(c) => [c]
    case Push(d) =>
      match MinimalOp(d)
      case Some(op) => [op]
      case None => PushPrefix(|d|) + d
  }

  function Serialize(items: seq<Item>): bytes
    requires Encodable(items)
  {
    if items == [] then [] else ItemBytes(items[0]) + Serialize(items[1..])
  }

  /** Reads one push: the length field selected by the first byte, then
      that many bytes of data. None when the script ends too early. */
  function ReadPush(b: bytes): (r: Option<(bytes, bytes)>)
    requires |b| > 0 && OP_0 < b[0] <= OP_PUSHDATA4
    ensures r.Some? ==> |r.value.0| < PushLimit && |r.value.1| < |b|
  {
    var header := if b[0] < OP_PUSHDATA1 then 1 else if b[0] == OP_PUSHDATA1 then 2
                  else if b[0] == OP_PUSHDATA2 then 3 else 5;
    if |b| < header then None
    else
      var len := if header == 1 then b[0] as nat else FromLE(b[1..header]);
      FromLEBound(b[1..header]);
      if |b| - header < len then None
      else Some((b[header..header + len], b[header + len..]))
  }

  function Parse(b: bytes): Option<seq<Item>>
    decreases |b|
  {
    if b == [] then Some([])
    else if OP_0 < b[0] <= OP_PUSHDATA4 then
      match ReadPush(b)
      case None => None
      case Some((data, rest)) =>
        match Parse(rest)
        case None => None
        case Some(tail) => Some([Push(data)] + tail)
    else
      match Parse(b[1..])
      case None => None
      case Some(tail) => Some([Op(b[0])] + tail)
  }

  /** An item that `Parse` gives back unchanged after `Serialize`: an opcode
      that is not a push opcode, or data no small-number opcode stands for. */
  predicate Canonical(it: Item)
  {
    match it
    case Op(c) => !(OP_0 < c <= OP_PUSHDATA4)
    case Push(d) => MinimalOp(d).None? && |d| < PushLimit
  }

  predicate AllCanonical(items: seq<Item>)
  {
    forall i :: 0 <= i < |items| ==> Canonical(items[i])
  }

  lemma {:induction false} SerializeAppend(a: seq<Item>, b: seq<Item>)
    requires Encodable(a) && Encodable(b)
    ensures Encodable(a + b)
    ensures Serialize(a + b) == Serialize(a) + Serialize(b)
  {
    if a != [] {
      assert (a + b)[1..] == a[1..] + b;
      assert Encodable(a[1..]);
      SerializeAppend(a[1..], b);
      assert a + b != [] && (a + b)[0] == a[0];
    } else {
      assert a + b == b;
    }
  }

  lemma SerializeCons(it: Item, rest: seq<Item>)
    requires EncodableItem(it) && Encodable(rest)
    ensures Encodable([it] + rest)
    ensures Serialize([it] + rest) == ItemBytes(it) + Serialize(rest)
  {
    assert ([it] + rest)[0] == it && ([it] + rest)[1..] == rest;
  }

  /** Reading the bytes of one canonical push returns its data and the rest. */
  lemma ReadPushPrefixed(d: bytes, t: bytes)
    requires |d| < PushLimit && MinimalOp(d).None?
    ensures var b := PushPrefix(|d|) + d + t;
      |b| > 0 && OP_0 < b[0] <= OP_PUSHDATA4 && ReadPush(b) == Some((d, t))
  {
    var p := PushPrefix(|d|);
    var b := p + d + t;
    var n := |d|;
    assert n >= 1;
    if n >= OP_PUSHDATA1 as nat && n <= 0xff {
      assert b[1..2] == [n];
      assert FromLE([n]) == n;
    } else if n > 0xff && n <= 0xffff {
      FromLELEFixed(n, 2);
      assert b[1..3] == LEFixed(n, 2);
    } else if n > 0xffff {
      FromLELEFixed(n, 4);
      assert b[1..5] == LEFixed(n, 4);
    }
    assert b[|p|..|p| + n] == d;
    assert b[|p| + n..] == t;
  }

  /** Parsing one canonical item followed by more bytes yields that item in
      front of whatever the rest parses to. */
  lemma ParseItem(it: Item, t: bytes)
    requires Canonical(it)
    ensures EncodableItem(it)
    ensures Parse(ItemBytes(it) + t) ==
      match Parse(t)
      case None => None
      case Some(tail) => Some([it] + tail)
  {
    match it
    case Op(c) =>
      assert (ItemBytes(it) + t)[1..] == t;
    case Push(d) =>
      ReadPushPrefixed(d, t);
      assert ItemBytes(it) + t == PushPrefix(|d|) + d + t;
  }

  /** The parser inverts the compiler on canonical scripts. */
  lemma {:induction false} ParseSerialize(items: seq<Item>)
    requires AllCanonical(items)
    ensures Encodable(items)
    ensures Parse(Serialize(items)) == Some(items)
  {
    if items != [] {
      assert AllCanonical(items[1..]) by {
        forall i | 0 <= i < |items[1..]| ensures Canonical(items[1..][i]) {
          assert items[1..][i] == items[i + 1];
        }
      }
      ParseSerialize(items[1..]);
      ParseItem(items[0], Serialize(items[1..]));
      SerializeCons(items[0], items[1..]);
      assert [items[0]] + items[1..] == items;
    }
  }

  /** Two canonical scripts with the same bytes are the same script. */
  lemma SerializeInjective(a: seq<Item>, b: seq<Item>)
    requires AllCanonical(a) && AllCanonical(b)
    requires Encodable(a) && Encodable(b) && Serialize(a) == Serialize(b)
    ensures a == b
  {
    ParseSerialize(a);
    ParseSerialize(b);
  }
}
