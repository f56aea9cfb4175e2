/** The opcodes that only work on the stack: logic/lscript EvalScript, by kind. */
module ScriptOps {
  import opened Wrappers
  import opened Basics
  import opened ScriptNum

  type Stack = seq<Bytes>

  /** An opcode with the data it pushes. */
  datatype ParsedOp = ParsedOp(op: Byte, data: Bytes)

  datatype ScriptError =
    | BadOpCode | ScriptSize | PushSize | OpCount | DisabledOpCode | MinimalDataPush | InvalidStackOperation
    | InvalidAltStackOperation | UnbalancedConditional | MinimalIfArgument | NegativeLockTime | UnsatisfiedLockTime
    | DiscouragedNop | VerifyFailed | OpReturn | InvalidOperandSize | EqualVerify | BadNumber | DivByZero | ModByZero
    | NumEqualVerify | InvalidSplitRange | ImpossibleEncoding | InvalidNumberRange | StackSize | SigDer | SigHighS
    | SigHashType | IllegalForkId | MustUseForkId | PubKeyType | NonCompressedPubKey | SigNullFail | SigNullDummy
    | CheckSigVerify | CheckDataSigVerify | PubKeyCount | SigCount | CheckMultiSigVerify | SigPushOnlyRule | EvalFalse
    | CleanStackRule | CheckerError

  const MAX_SCRIPT_ELEMENT_SIZE: nat := 520
  const MAX_OPS_PER_SCRIPT: nat := 201
  const MAX_SCRIPT_SIZE: nat := 10000
  const MAX_PUBKEYS_PER_MULTISIG: nat := 20
  const MAX_STACK_SIZE: nat := 1000

  const OP_0: Byte := 0x00
  const OP_PUSHDATA1: Byte := 0x4c
  const OP_PUSHDATA2: Byte := 0x4d
  const OP_PUSHDATA4: Byte := 0x4e
  const OP_1NEGATE: Byte := 0x4f
  const OP_1: Byte := 0x51
  const OP_16: Byte := 0x60
  const OP_NOP: Byte := 0x61
  const OP_IF: Byte := 0x63
  const OP_NOTIF: Byte := 0x64
  const OP_ELSE: Byte := 0x67
  const OP_ENDIF: Byte := 0x68
  const OP_VERIFY: Byte := 0x69
  const OP_RETURN: Byte := 0x6a
  const OP_TOALTSTACK: Byte := 0x6b
  const OP_FROMALTSTACK: Byte := 0x6c
  const OP_2DROP: Byte := 0x6d
  const OP_2DUP: Byte := 0x6e
  const OP_3DUP: Byte := 0x6f
  const OP_2OVER: Byte := 0x70
  const OP_2ROT: Byte := 0x71
  const OP_2SWAP: Byte := 0x72
  const OP_IFDUP: Byte := 0x73
  const OP_DEPTH: Byte := 0x74
  const OP_DROP: Byte := 0x75
  const OP_DUP: Byte := 0x76
  const OP_NIP: Byte := 0x77
  const OP_OVER: Byte := 0x78
  const OP_PICK: Byte := 0x79
  const OP_ROLL: Byte := 0x7a
  const OP_ROT: Byte := 0x7b
  const OP_SWAP: Byte := 0x7c
  const OP_TUCK: Byte := 0x7d
  const OP_CAT: Byte := 0x7e
  const OP_SPLIT: Byte := 0x7f
  const OP_NUM2BIN: Byte := 0x80
  const OP_BIN2NUM: Byte := 0x81
  const OP_SIZE: Byte := 0x82
  const OP_INVERT: Byte := 0x83
  const OP_AND: Byte := 0x84
  const OP_OR: Byte := 0x85
  const OP_XOR: Byte := 0x86
  const OP_EQUAL: Byte := 0x87
  const OP_EQUALVERIFY: Byte := 0x88
  const OP_1ADD: Byte := 0x8b
  const OP_1SUB: Byte := 0x8c
  const OP_2MUL: Byte := 0x8d
  const OP_2DIV: Byte := 0x8e
  const OP_NEGATE: Byte := 0x8f
  const OP_ABS: Byte := 0x90
  const OP_NOT: Byte := 0x91
  const OP_0NOTEQUAL: Byte := 0x92
  const OP_ADD: Byte := 0x93
  const OP_SUB: Byte := 0x94
  const OP_MUL: Byte := 0x95
  const OP_DIV: Byte := 0x96
  const OP_MOD: Byte := 0x97
  const OP_LSHIFT: Byte := 0x98
  const OP_RSHIFT: Byte := 0x99
  const OP_BOOLAND: Byte := 0x9a
  const OP_BOOLOR: Byte := 0x9b
  const OP_NUMEQUAL: Byte := 0x9c
  const OP_NUMEQUALVERIFY: Byte := 0x9d
  const OP_NUMNOTEQUAL: Byte := 0x9e
  const OP_LESSTHAN: Byte := 0x9f
  const OP_GREATERTHAN: Byte := 0xa0
  const OP_LESSTHANOREQUAL: Byte := 0xa1
  const OP_GREATERTHANOREQUAL: Byte := 0xa2
  const OP_MIN: Byte := 0xa3
  const OP_MAX: Byte := 0xa4
  const OP_WITHIN: Byte := 0xa5
  const OP_RIPEMD160: Byte := 0xa6
  const OP_HASH160: Byte := 0xa9
  const OP_HASH256: Byte := 0xaa
  const OP_CODESEPARATOR: Byte := 0xab
  const OP_CHECKSIG: Byte := 0xac
  const OP_CHECKSIGVERIFY: Byte := 0xad
  const OP_CHECKMULTISIG: Byte := 0xae
  const OP_CHECKMULTISIGVERIFY: Byte := 0xaf
  const OP_NOP1: Byte := 0xb0
  const OP_CHECKLOCKTIMEVERIFY: Byte := 0xb1
  const OP_CHECKSEQUENCEVERIFY: Byte := 0xb2
  const OP_NOP4: Byte := 0xb3
  const OP_NOP10: Byte := 0xb9
  const OP_CHECKDATASIG: Byte := 0xba
  const OP_CHECKDATASIGVERIFY: Byte := 0xbb

  predicate IsOpCodeDisabled(op: Byte) {
    op == OP_INVERT || op == OP_2MUL || op == OP_2DIV || op == OP_MUL || op == OP_LSHIFT || op == OP_RSHIFT
  }

  /** The shortest push opcode for the length of the data. */
  predicate CheckCompactDataPush(e: ParsedOp) {
    if |e.data| <= 75 then e.op == |e.data|
    else if |e.data| <= 255 then e.op == OP_PUSHDATA1
    else if |e.data| <= 65535 then e.op == OP_PUSHDATA2
    else e.op == OP_PUSHDATA4
  }

  predicate CheckMinimalDataPush(e: ParsedOp) {
    if |e.data| == 0 then e.op == OP_0
    else if |e.data| == 1 then
      !(1 <= e.data[0] <= 16 && e.op != OP_1 + e.data[0] - 1) && !(e.data[0] == 0x81 && e.op != OP_1NEGATE)
    else CheckCompactDataPush(e)
  }

  function RemoveOpcodeByData(ops: seq<ParsedOp>, data: Bytes): seq<ParsedOp> {
    if ops == [] then []
    else if CheckCompactDataPush(ops[0]) && ops[0].data == data then RemoveOpcodeByData(ops[1..], data)
    else [ops[0]] + RemoveOpcodeByData(ops[1..], data)
  }

  /* Helpers on stacks: positions count from the top, beginning with 1 */

  function Top(s: Stack, k: nat): Bytes
    requires 1 <= k <= |s|
  {
    s[|s| - k]
  }

  function Drop(s: Stack, k: nat): Stack
    requires k <= |s|
  {
    s[..|s| - k]
  }

  function Bool(b: bool): Bytes {
    if b then [1] else []
  }

  type OpResult = Result<Stack, ScriptError>

  const SHORT: OpResult := Failure(InvalidStackOperation)

  /* Stack manipulation */

  /** The stack and the alternative stack after one of OP_TOALTSTACK .. OP_TUCK; PICK and ROLL read a number. */
  function StackOp(op: Byte, s: Stack, alt: Stack, minimal: bool): Result<(Stack, Stack), ScriptError> {
    if op == OP_TOALTSTACK then
      if |s| < 1 then Failure(InvalidStackOperation) else Success((Drop(s, 1), alt + [Top(s, 1)]))
    else if op == OP_FROMALTSTACK then
      if |alt| < 1 then Failure(InvalidAltStackOperation) else Success((s + [Top(alt, 1)], Drop(alt, 1)))
    else
      var r := if op == OP_PICK || op == OP_ROLL then PickOp(op, s, minimal) else ShuffleOp(op, s);
      match r
      case Failure(e) => Failure(e)
      case Success(t) => Success((t, alt))
  }

  function PickOp(op: Byte, s: Stack, minimal: bool): OpResult {
    if |s| < 2 then SHORT
    else
      var num := Num(Top(s, 1), minimal, DEFAULT_MAX_NUM_SIZE);
      if num.None? then Failure(BadNumber)
      else
        var n, rest := num.value, Drop(s, 1);
        if n < 0 || n >= |rest| then SHORT
        else
          var x := Top(rest, n + 1);
          var base := if op == OP_ROLL then rest[..|rest| - n - 1] + rest[|rest| - n..] else rest;
          Success(base + [x])
  }

  function ShuffleOp(op: Byte, s: Stack): OpResult {
    if op == OP_2DROP then if |s| < 2 then SHORT else Success(Drop(s, 2))
    else if op == OP_2DUP then if |s| < 2 then SHORT else Success(s + [Top(s, 2), Top(s, 1)])
    else if op == OP_3DUP then if |s| < 3 then SHORT else Success(s + [Top(s, 3), Top(s, 2), Top(s, 1)])
    else if op == OP_2OVER then if |s| < 4 then SHORT else Success(s + [Top(s, 4), Top(s, 3)])
    else if op == OP_2ROT then
      if |s| < 6 then SHORT
      else Success(Drop(s, 6) + [Top(s, 4), Top(s, 3), Top(s, 2), Top(s, 1), Top(s, 6), Top(s, 5)])
    else if op == OP_2SWAP then
      if |s| < 4 then SHORT else Success(Drop(s, 4) + [Top(s, 2), Top(s, 1), Top(s, 4), Top(s, 3)])
    else if op == OP_IFDUP then
      if |s| < 1 then SHORT else Success(if Truth(Top(s, 1)) then s + [Top(s, 1)] else s)
    else if op == OP_DEPTH then Success(s + [Encode(|s|)])
    else if op == OP_DROP then if |s| < 1 then SHORT else Success(Drop(s, 1))
    else if op == OP_DUP then if |s| < 1 then SHORT else Success(s + [Top(s, 1)])
    else if op == OP_NIP then if |s| < 2 then SHORT else Success(Drop(s, 2) + [Top(s, 1)])
    else if op == OP_OVER then if |s| < 2 then SHORT else Success(s + [Top(s, 2)])
    else if op == OP_ROT then
      if |s| < 3 then SHORT else Success(Drop(s, 3) + [Top(s, 2), Top(s, 1), Top(s, 3)])
    else if op == OP_SWAP then if |s| < 2 then SHORT else Success(Drop(s, 2) + [Top(s, 1), Top(s, 2)])
    else if op == OP_TUCK then
      if |s| < 2 then SHORT else Success(Drop(s, 2) + [Top(s, 1), Top(s, 2), Top(s, 1)])
    else Failure(BadOpCode)
  }

  /* Byte strings */

  function SpliceOp(op: Byte, s: Stack, minimal: bool): OpResult {
    if op == OP_CAT then
      if |s| < 2 then SHORT
      else if |Top(s, 2)| + |Top(s, 1)| > MAX_SCRIPT_ELEMENT_SIZE then Failure(PushSize)
      else Success(Drop(s, 2) + [Top(s, 2) + Top(s, 1)])
    else if op == OP_SPLIT then
      if |s| < 2 then SHORT
      else
        var position := Num(Top(s, 1), minimal, DEFAULT_MAX_NUM_SIZE);
        if position.None? then SHORT
        else if !(0 <= position.value <= |Top(s, 2)|) then Failure(InvalidSplitRange)
        else Success(Drop(s, 2) + [Top(s, 2)[..position.value], Top(s, 2)[position.value..]])
    else if op == OP_NUM2BIN then
      if |s| < 2 then SHORT
      else
        var size := Num(Top(s, 1), minimal, DEFAULT_MAX_NUM_SIZE);
        if size.None? then Failure(BadNumber)
        else if size.value > MAX_SCRIPT_ELEMENT_SIZE || size.value < 0 then Failure(PushSize)
        else
          var trimmed := Trimmed(Top(s, 2));
          if |trimmed| > size.value then Failure(ImpossibleEncoding)
          else Success(Drop(s, 2) + [Padded(trimmed, size.value)])
    else if op == OP_BIN2NUM then
      if |s| < 1 then SHORT
      else
        var trimmed := Trimmed(Top(s, 1));
        if !IsMinimallyEncoded(trimmed, DEFAULT_MAX_NUM_SIZE) then Failure(InvalidNumberRange)
        else Success(Drop(s, 1) + [trimmed])
    else if op == OP_SIZE then
      if |s| < 1 then SHORT else Success(s + [Encode(|Top(s, 1)|)])
    else Failure(BadOpCode)
  }

  /** The same number in exactly size bytes, the sign moved to the last. */
  function Padded(b: Bytes, size: nat): (r: Bytes)
    requires |b| <= size
    ensures |r| == size
  {
    if |b| == size then b
    else
      var last := if b == [] then 0 else b[|b| - 1];
      var sign: Byte := if last >= 0x80 then 0x80 else 0;
      var body := if b == [] then [] else b[..|b| - 1] + [last - sign];
      body + seq(size - 1 - |body|, i => 0) + [sign]
  }

  lemma {:induction false} MagnitudeOfZeros(body: Bytes, zeros: Bytes)
    requires forall i :: 0 <= i < |zeros| ==> zeros[i] == 0
    ensures Magnitude(body + zeros) == Magnitude(body)
  {
    if zeros == [] {
      assert body + zeros == body;
    } else {
      var rest := zeros[..|zeros| - 1];
      MagnitudeOfZeros(body, rest);
      MagnitudeTopZero(body + rest);
      assert body + zeros == body + rest + [0];
    }
  }

  /** Padding does not change the number ... */
  lemma {:induction false} PaddedValue(b: Bytes, size: nat)
    requires |b| <= size
    ensures Value(Padded(b, size)) == Value(b)
  {
    if |b| < size {
      var last := if b == [] then 0 else b[|b| - 1];
      var sign: Byte := if last >= 0x80 then 0x80 else 0;
      var body := if b == [] then [] else b[..|b| - 1] + [last - sign];
      var zeros: Bytes := seq(size - 1 - |body|, i => 0);
      assert Value(b) == if sign == 0x80 then -(Magnitude(body) as int) else Magnitude(body) by {
        assert sign == 0 ==> body == b;
      }
      hide Magnitude;
      MagnitudeOfZeros(body, zeros);
      MagnitudeTopZero(body + zeros);
      ValueSnoc(body + zeros, sign);
    }
  }

  /** ... so BIN2NUM takes back what NUM2BIN did. */
  lemma {:induction false} Bin2NumUndoesNum2Bin(x: Bytes, size: nat)
    requires |Trimmed(x)| <= size
    ensures Trimmed(Padded(Trimmed(x), size)) == Trimmed(x)
  {
    hide Trimmed, Padded, Value, Encode, IsMinimallyEncoded;
    var t := Trimmed(x);
    TrimmedMeaning(x);
    PaddedValue(t, size);
    TrimmedMeaning(Padded(t, size));
    MinimalIsEncoding(t);
    MinimalIsEncoding(Trimmed(Padded(t, size)));
  }

  function BitOp(op: Byte, a: Byte, b: Byte): Byte {
    var x, y := a as bv8, b as bv8;
    if op == OP_AND then (x & y) as Byte else if op == OP_OR then (x | y) as Byte else (x ^ y) as Byte
  }

  function BitwiseOp(op: Byte, s: Stack): OpResult {
    if |s| < 2 then SHORT
    else if op == OP_EQUAL then Success(Drop(s, 2) + [Bool(Top(s, 2) == Top(s, 1))])
    else if op == OP_EQUALVERIFY then if Top(s, 2) == Top(s, 1) then Success(Drop(s, 2)) else Failure(EqualVerify)
    else if |Top(s, 2)| != |Top(s, 1)| then Failure(InvalidOperandSize)
    else
      var a, b := Top(s, 2), Top(s, 1);
      Success(Drop(s, 2) + [seq(|a|, i requires 0 <= i < |a| && |a| == |b| => BitOp(op, a[i], b[i]))])
  }

  /* Numbers */

  /** Division truncates towards zero. */
  function TruncatedDiv(a: int, b: int): int
    requires b != 0
  {
    var q := (if a < 0 then -a else a) / (if b < 0 then -b else b);
    if (a < 0) == (b < 0) then q else -q
  }

  function TruncatedMod(a: int, b: int): int
    requires b != 0
  {
    a - b * TruncatedDiv(a, b)
  }

  function UnaryOp(op: Byte, a: int): Bytes {
    if op == OP_1ADD then Encode(a + 1)
    else if op == OP_1SUB then Encode(a - 1)
    else if op == OP_NEGATE then Encode(-a)
    else if op == OP_ABS then Encode(if a < 0 then -a else a)
    else if op == OP_NOT then Bool(a == 0)
    else Bool(a != 0)
  }

  function BinaryOp(op: Byte, a: int, b: int): Result<Bytes, ScriptError> {
    if op == OP_ADD then Success(Encode(a + b))
    else if op == OP_SUB then Success(Encode(a - b))
    else if op == OP_DIV then if b == 0 then Failure(DivByZero) else Success(Encode(TruncatedDiv(a, b)))
    else if op == OP_MOD then if b == 0 then Failure(ModByZero) else Success(Encode(TruncatedMod(a, b)))
    else if op == OP_BOOLAND then Success(Bool(a != 0 && b != 0))
    else if op == OP_BOOLOR then Success(Bool(a != 0 || b != 0))
    else if op == OP_NUMEQUAL then Success(Bool(a == b))
    else if op == OP_NUMEQUALVERIFY then if a == b then Success(Bool(true)) else Failure(NumEqualVerify)
    else if op == OP_NUMNOTEQUAL then Success(Bool(a != b))
    else if op == OP_LESSTHAN then Success(Bool(a < b))
    else if op == OP_GREATERTHAN then Success(Bool(a > b))
    else if op == OP_LESSTHANOREQUAL then Success(Bool(a <= b))
    else if op == OP_GREATERTHANOREQUAL then Success(Bool(a >= b))
    else if op == OP_MIN then Success(Encode(if a < b then a else b))
    else Success(Encode(if a > b then a else b))
  }

  predicate IsUnary(op: Byte) {
    op == OP_1ADD || op == OP_1SUB || op == OP_NEGATE || op == OP_ABS || op == OP_NOT || op == OP_0NOTEQUAL
  }

  predicate IsBinary(op: Byte) {
    op == OP_ADD || op == OP_SUB || op == OP_DIV || op == OP_MOD || (OP_BOOLAND <= op <= OP_MAX)
  }

  function NumericOp(op: Byte, s: Stack, minimal: bool): OpResult {
    if IsUnary(op) then
      if |s| < 1 then SHORT
      else
        var a := Num(Top(s, 1), minimal, DEFAULT_MAX_NUM_SIZE);
        if a.None? then Failure(BadNumber) else Success(Drop(s, 1) + [UnaryOp(op, a.value)])
    else if IsBinary(op) then
      if |s| < 2 then SHORT
      else
        var a, b := Num(Top(s, 2), minimal, DEFAULT_MAX_NUM_SIZE), Num(Top(s, 1), minimal, DEFAULT_MAX_NUM_SIZE);
        if a.None? || b.None? then Failure(BadNumber)
        else
          match BinaryOp(op, a.value, b.value)
          case Failure(e) => Failure(e)
          case Success(r) => Success(if op == OP_NUMEQUALVERIFY then Drop(s, 2) else Drop(s, 2) + [r])
    else if op == OP_WITHIN then
      if |s| < 3 then SHORT
      else
        var x, low, high := Num(Top(s, 3), minimal, DEFAULT_MAX_NUM_SIZE), Num(Top(s, 2), minimal, DEFAULT_MAX_NUM_SIZE),
            Num(Top(s, 1), minimal, DEFAULT_MAX_NUM_SIZE);
        if x.None? || low.None? || high.None? then Failure(BadNumber)
        else Success(Drop(s, 3) + [Bool(low.value <= x.value < high.value)])
    else Failure(BadOpCode)
  }

  /* What minimal encoding rules change */

  lemma {:induction false} NumRelaxed(b: Bytes, maxSize: nat)
    ensures Num(b, true, maxSize).Some? ==> Num(b, false, maxSize) == Num(b, true, maxSize)
  {
  }

  /** Dropping the minimal-number rule keeps every result there was. */
  lemma {:induction false} StackOpRelaxed(op: Byte, s: Stack, alt: Stack)
    ensures StackOp(op, s, alt, true).Success? ==> StackOp(op, s, alt, false) == StackOp(op, s, alt, true)
  {
    hide Num, ShuffleOp, Truth, Encode;
    if |s| >= 1 {
      NumRelaxed(Top(s, 1), DEFAULT_MAX_NUM_SIZE);
    }
  }

  lemma {:induction false} SpliceOpRelaxed(op: Byte, s: Stack)
    ensures SpliceOp(op, s, true).Success? ==> SpliceOp(op, s, false) == SpliceOp(op, s, true)
  {
    hide Num, Trimmed, Padded, IsMinimallyEncoded, Encode;
    if |s| >= 1 {
      NumRelaxed(Top(s, 1), DEFAULT_MAX_NUM_SIZE);
    }
  }

  lemma {:induction false} NumericOpRelaxed(op: Byte, s: Stack)
    ensures NumericOp(op, s, true).Success? ==> NumericOp(op, s, false) == NumericOp(op, s, true)
  {
    hide Num, UnaryOp, BinaryOp, IsUnary, IsBinary;
    if |s| >= 1 {
      NumRelaxed(Top(s, 1), DEFAULT_MAX_NUM_SIZE);
    }
    if |s| >= 2 {
      NumRelaxed(Top(s, 2), DEFAULT_MAX_NUM_SIZE);
    }
    if |s| >= 3 {
      NumRelaxed(Top(s, 3), DEFAULT_MAX_NUM_SIZE);
    }
  }
}
