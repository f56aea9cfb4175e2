/** What the opcodes mean: positions on the stack and numbers, independently of how the interpreter finds them. */
module ScriptMeaning {
  import opened Wrappers
  import opened Basics
  import opened ScriptNum
  import opened ScriptOps
  import opened ScriptFlags
  import opened Multisig
  import opened ScriptEval

  /** o comes of executing, not skipping, opcode op of a script. */
  ghost predicate Ran(op: Byte, ops: seq<ParsedOp>, i: nat, c: Checker, flags: Flags, st: State, o: Outcome) {
    i < |ops| && ops[i].op == op && Executing(st) && o == Execute(ops, i, c, flags, st)
  }

  /** o is st with another stack, and nothing else changed. */
  predicate Leaves(o: Outcome, st: State, s: Stack) { o == Running(st.(stack := s)) }

  predicate Fails(o: Outcome, st: State, e: ScriptError) { o == Failed(e, st.checks) }

  /** A byte string that may be used as a number of up to size bytes. */
  predicate IsNumber(x: Bytes, flags: Flags, size: nat) {
    |x| <= size && (MinimalData in flags ==> IsMinimallyEncoded(x, |x|))
  }

  /** o is st with base and, on top of it, the shortest byte string for v. */
  ghost predicate LeavesNumber(o: Outcome, st: State, base: Stack, v: int) {
    exists x :: Leaves(o, st, base + [x]) && Value(x) == v && IsMinimallyEncoded(x, |x|)
  }

  predicate LeavesBool(o: Outcome, st: State, base: Stack, b: bool) { Leaves(o, st, base + [if b then [1] else []]) }

  lemma {:induction false} NumIff(x: Bytes, flags: Flags, size: nat)
    ensures Num(x, MinimalData in flags, size) == if IsNumber(x, flags, size) then Some(Value(x)) else None
  {
  }

  lemma {:induction false} EncodedNumber(o: Outcome, st: State, base: Stack, v: int)
    requires Leaves(o, st, base + [Encode(v)])
    ensures LeavesNumber(o, st, base, v)
  {
    hide Encode, Value, IsMinimallyEncoded;
    EncodeRoundTrip(v);
    assert IsMinimallyEncoded(Encode(v), |Encode(v)|);
  }

  /* Moving values */

  lemma {:induction false} OneMoved(op: Byte, ops: seq<ParsedOp>, i: nat, c: Checker, flags: Flags, st: State, o: Outcome,
      base: Stack, a: Bytes)
    requires Ran(op, ops, i, c, flags, st, o) && st.stack == base + [a]
    ensures op == OP_DROP ==> Leaves(o, st, base)
    ensures op == OP_DUP ==> Leaves(o, st, base + [a, a])
    ensures op == OP_IFDUP ==> Leaves(o, st, if Value(a) != 0 then base + [a, a] else base + [a])
    ensures op == OP_TOALTSTACK ==> o == Running(st.(stack := base, alt := st.alt + [a]))
    ensures op == OP_VERIFY ==> if Value(a) != 0 then Leaves(o, st, base) else Fails(o, st, VerifyFailed)
  {
    hide Value, Truth, PickOp;
    TruthIsNonZero(a);
  }

  lemma {:induction false} FromAltStack(ops: seq<ParsedOp>, i: nat, c: Checker, flags: Flags, st: State, o: Outcome)
    requires Ran(OP_FROMALTSTACK, ops, i, c, flags, st, o)
    ensures st.alt == [] ==> Fails(o, st, InvalidAltStackOperation)
    ensures forall under, a :: st.alt == under + [a] ==> o == Running(st.(stack := st.stack + [a], alt := under))
  {
    hide PickOp, ShuffleOp;
  }

  lemma {:induction false} TwoMoved(op: Byte, ops: seq<ParsedOp>, i: nat, c: Checker, flags: Flags, st: State, o: Outcome,
      base: Stack, a: Bytes, b: Bytes)
    requires Ran(op, ops, i, c, flags, st, o) && st.stack == base + [a, b]
    ensures op == OP_2DROP ==> Leaves(o, st, base)
    ensures op == OP_2DUP ==> Leaves(o, st, base + [a, b, a, b])
    ensures op == OP_NIP ==> Leaves(o, st, base + [b])
    ensures op == OP_OVER ==> Leaves(o, st, base + [a, b, a])
    ensures op == OP_SWAP ==> Leaves(o, st, base + [b, a])
    ensures op == OP_TUCK ==> Leaves(o, st, base + [b, a, b])
  {
    hide PickOp, Truth;
  }

  lemma {:induction false} ThreeMoved(op: Byte, ops: seq<ParsedOp>, i: nat, c: Checker, flags: Flags, st: State, o: Outcome,
      base: Stack, x1: Bytes, x2: Bytes, x3: Bytes)
    requires Ran(op, ops, i, c, flags, st, o) && st.stack == base + [x1, x2, x3]
    ensures op == OP_3DUP ==> Leaves(o, st, base + [x1, x2, x3, x1, x2, x3])
    ensures op == OP_ROT ==> Leaves(o, st, base + [x2, x3, x1])
  {
    hide PickOp, Truth;
  }

  lemma {:induction false} PairsMoved(op: Byte, ops: seq<ParsedOp>, i: nat, c: Checker, flags: Flags, st: State, o: Outcome,
      base: Stack, x1: Bytes, x2: Bytes, x3: Bytes, x4: Bytes)
    requires Ran(op, ops, i, c, flags, st, o) && st.stack == base + [x1, x2, x3, x4]
    ensures op == OP_2OVER ==> Leaves(o, st, base + [x1, x2, x3, x4, x1, x2])
    ensures op == OP_2SWAP ==> Leaves(o, st, base + [x3, x4, x1, x2])
    ensures op == OP_2ROT ==> forall under, y1, y2 :: base == under + [y1, y2] ==> Leaves(o, st, under + [x1, x2, x3, x4, y1, y2])
  {
    hide PickOp, Truth;
  }

  /** PICK copies and ROLL moves the value that has as many values above it as the number on top says. */
  lemma {:induction false} PickedAndRolled(op: Byte, ops: seq<ParsedOp>, i: nat, c: Checker, flags: Flags, st: State, o: Outcome,
      base: Stack, x: Bytes, above: Stack, n: Bytes)
    requires Ran(op, ops, i, c, flags, st, o) && st.stack == base + [x] + above + [n]
    requires IsNumber(n, flags, 4) && Value(n) == |above|
    ensures op == OP_PICK ==> Leaves(o, st, base + [x] + above + [x])
    ensures op == OP_ROLL ==> Leaves(o, st, base + above + [x])
  {
    hide ShuffleOp, Value, IsMinimallyEncoded;
    NumIff(n, flags, 4);
    var rest := Drop(st.stack, 1);
    assert rest == base + [x] + above;
    assert rest[..|rest| - |above| - 1] == base && rest[|rest| - |above|..] == above;
  }

  lemma {:induction false} PickedTooDeep(op: Byte, ops: seq<ParsedOp>, i: nat, c: Checker, flags: Flags, st: State, o: Outcome,
      base: Stack, n: Bytes)
    requires Ran(op, ops, i, c, flags, st, o) && (op == OP_PICK || op == OP_ROLL) && base != [] && st.stack == base + [n]
    ensures !IsNumber(n, flags, 4) ==> Fails(o, st, BadNumber)
    ensures IsNumber(n, flags, 4) && !(0 <= Value(n) < |base|) ==> Fails(o, st, InvalidStackOperation)
  {
    hide ShuffleOp, Value, IsMinimallyEncoded;
    NumIff(n, flags, 4);
  }

  /* New values */

  /** Data pushes, small numbers, the depth of the stack and the length of the top value. */
  lemma {:induction false} Pushed(op: Byte, ops: seq<ParsedOp>, i: nat, c: Checker, flags: Flags, st: State, o: Outcome)
    requires Ran(op, ops, i, c, flags, st, o)
    ensures op <= OP_PUSHDATA4 ==>
      if MinimalData in flags && !CheckMinimalDataPush(ops[i]) then Fails(o, st, MinimalDataPush)
      else Leaves(o, st, st.stack + [ops[i].data])
    ensures op == OP_1NEGATE ==> LeavesNumber(o, st, st.stack, -1)
    ensures OP_1 <= op <= OP_16 ==> LeavesNumber(o, st, st.stack, 1 + op - OP_1)
    ensures op == OP_DEPTH ==> LeavesNumber(o, st, st.stack, |st.stack|)
    ensures op == OP_SIZE && st.stack != [] ==> LeavesNumber(o, st, st.stack, |Top(st.stack, 1)|)
  {
    hide CheckMinimalDataPush, Encode, Truth, Trimmed, Value, IsMinimallyEncoded;
    if op == OP_1NEGATE || OP_1 <= op <= OP_16 {
      EncodedNumber(o, st, st.stack, op - 0x50);
    } else if op == OP_DEPTH {
      EncodedNumber(o, st, st.stack, |st.stack|);
    } else if op == OP_SIZE && st.stack != [] {
      EncodedNumber(o, st, st.stack, |Top(st.stack, 1)|);
    }
  }

  /** An opcode that can push so many bytes: the length itself, or one that is followed by it. */
  predicate CanPush(op: Byte, size: nat) {
    (op <= 75 && op == size) || (op == OP_PUSHDATA1 && size < 0x100) || (op == OP_PUSHDATA2 && size < 0x1_0000) ||
    (op == OP_PUSHDATA4 && size < 0x1_0000_0000)
  }

  /** The bytes it takes besides the data. */
  function Overhead(op: Byte): nat {
    if op == OP_PUSHDATA4 then 5 else if op == OP_PUSHDATA2 then 3 else if op == OP_PUSHDATA1 then 2 else 1
  }

  /** No other opcode pushes the data in fewer bytes. */
  ghost predicate IsShortest(e: ParsedOp) {
    forall op :: CanPush(op, |e.data|) ==> Overhead(e.op) <= Overhead(op)
  }

  /** Compact pushes are the shortest ones. */
  lemma {:induction false} CompactIsShortest(e: ParsedOp)
    requires CanPush(e.op, |e.data|)
    ensures CheckCompactDataPush(e) <==> IsShortest(e)
  {
    var n := |e.data|;
    var best: Byte := if n <= 75 then n else if n < 0x100 then OP_PUSHDATA1 else if n < 0x1_0000 then OP_PUSHDATA2 else OP_PUSHDATA4;
    assert CanPush(best, n);
  }

  /** Minimal pushes are the shortest ones, but one byte may be pushed in any way unless an opcode stands for the number. */
  lemma {:induction false} MinimalPush(e: ParsedOp)
    requires CanPush(e.op, |e.data|)
    ensures CheckMinimalDataPush(e) <==>
      if |e.data| == 1 then !(1 <= e.data[0] <= 16) && e.data[0] != 0x81 else IsShortest(e)
  {
    hide IsShortest;
    CompactIsShortest(e);
  }

  lemma {:induction false} Hashed(op: Byte, ops: seq<ParsedOp>, i: nat, c: Checker, flags: Flags, st: State, o: Outcome,
      base: Stack, a: Bytes)
    requires Ran(op, ops, i, c, flags, st, o) && OP_RIPEMD160 <= op <= OP_HASH256 && st.stack == base + [a]
    ensures Leaves(o, st, base + [c.hash(op, a)])
  {
  }

  lemma {:induction false} Compared(op: Byte, ops: seq<ParsedOp>, i: nat, c: Checker, flags: Flags, st: State, o: Outcome,
      base: Stack, a: Bytes, b: Bytes)
    requires Ran(op, ops, i, c, flags, st, o) && st.stack == base + [a, b]
    ensures op == OP_EQUAL ==> LeavesBool(o, st, base, a == b)
    ensures op == OP_EQUALVERIFY ==> if a == b then Leaves(o, st, base) else Fails(o, st, EqualVerify)
  {
  }

  /** CAT and SPLIT: at any position, the two halves are the parts of what was split. */
  lemma {:induction false} JoinedAndSplit(op: Byte, ops: seq<ParsedOp>, i: nat, c: Checker, flags: Flags, st: State, o: Outcome,
      base: Stack, a: Bytes, b: Bytes)
    requires Ran(op, ops, i, c, flags, st, o) && st.stack == base + [a, b]
    ensures op == OP_CAT ==> if |a + b| <= 520 then Leaves(o, st, base + [a + b]) else Fails(o, st, PushSize)
    ensures op == OP_SPLIT && !IsNumber(b, flags, 4) ==> Fails(o, st, InvalidStackOperation)
    ensures op == OP_SPLIT && IsNumber(b, flags, 4) && !(0 <= Value(b) <= |a|) ==> Fails(o, st, InvalidSplitRange)
    ensures op == OP_SPLIT && IsNumber(b, flags, 4) && 0 <= Value(b) <= |a| ==>
      exists x, y :: Leaves(o, st, base + [x, y]) && x + y == a && |x| == Value(b)
  {
    hide Value, IsMinimallyEncoded, Trimmed, Padded, Encode;
    NumIff(b, flags, 4);
    if op == OP_SPLIT && IsNumber(b, flags, 4) && 0 <= Value(b) <= |a| {
      var x, y := a[..Value(b)], a[Value(b)..];
      assert Leaves(o, st, base + [x, y]) && x + y == a;
    }
  }

  /** NUM2BIN: the same number in exactly so many bytes, if there is such a byte string. */
  lemma {:induction false} NumToBin(ops: seq<ParsedOp>, i: nat, c: Checker, flags: Flags, st: State, o: Outcome,
      base: Stack, a: Bytes, n: Bytes)
    requires Ran(OP_NUM2BIN, ops, i, c, flags, st, o) && st.stack == base + [a, n]
    ensures !IsNumber(n, flags, 4) ==> Fails(o, st, BadNumber)
    ensures IsNumber(n, flags, 4) && !(0 <= Value(n) <= 520) ==> Fails(o, st, PushSize)
    ensures IsNumber(n, flags, 4) && 0 <= Value(n) <= 520 && o.Running? ==>
      exists x :: Leaves(o, st, base + [x]) && |x| == Value(n) && Value(x) == Value(a)
    ensures IsNumber(n, flags, 4) && 0 <= Value(n) <= 520 && !o.Running? ==>
      Fails(o, st, ImpossibleEncoding) && forall x :: |x| == Value(n) ==> Value(x) != Value(a)
  {
    hide Value, IsMinimallyEncoded, Trimmed, Padded, Encode;
    NumIff(n, flags, 4);
    if IsNumber(n, flags, 4) && 0 <= Value(n) <= 520 {
      TrimmedMeaning(a);
      if |Trimmed(a)| <= Value(n) {
        var x := Padded(Trimmed(a), Value(n));
        PaddedValue(Trimmed(a), Value(n));
        assert Leaves(o, st, base + [x]);
      } else {
        forall x | |x| == Value(n)
          ensures Value(x) != Value(a)
        {
          ShortestIsTrimmed(x, a);
        }
      }
    }
  }

  /** No byte string for a number is shorter than the trimmed ones. */
  lemma {:induction false} ShortestIsTrimmed(x: Bytes, a: Bytes)
    ensures Value(x) == Value(a) ==> |Trimmed(a)| <= |x|
  {
    hide Value, IsMinimallyEncoded, Trimmed, Encode;
    if Value(x) == Value(a) {
      TrimmedMeaning(a);
      TrimmedMeaning(x);
      MinimalIsEncoding(Trimmed(a));
      MinimalIsEncoding(Trimmed(x));
    }
  }

  /** BIN2NUM: the shortest byte string for the same number, which must have at most four bytes. */
  lemma {:induction false} BinToNum(ops: seq<ParsedOp>, i: nat, c: Checker, flags: Flags, st: State, o: Outcome,
      base: Stack, a: Bytes)
    requires Ran(OP_BIN2NUM, ops, i, c, flags, st, o) && st.stack == base + [a]
    ensures o.Running? ==> LeavesNumber(o, st, base, Value(a))
    ensures o.Running? <==> exists x :: |x| <= 4 && Value(x) == Value(a)
    ensures !o.Running? ==> Fails(o, st, InvalidNumberRange)
  {
    hide Value, IsMinimallyEncoded, Trimmed, Encode;
    TrimmedMeaning(a);
    var t := Trimmed(a);
    assert IsMinimallyEncoded(t, 4) <==> |t| <= 4 by { MinimalWithin(t, 4); }
    if x :| |x| <= 4 && Value(x) == Value(a) {
      ShortestIsTrimmed(x, a);
    }
    if |t| <= 4 {
      assert Leaves(o, st, base + [t]);
    }
  }

  lemma {:induction false} MinimalWithin(x: Bytes, size: nat)
    ensures IsMinimallyEncoded(x, size) <==> IsMinimallyEncoded(x, |x|) && |x| <= size
  {
  }

  lemma {:induction false} BitwiseRuns(op: Byte, ops: seq<ParsedOp>, i: nat, c: Checker, flags: Flags, st: State, o: Outcome,
      base: Stack, a: Bytes, b: Bytes)
    requires Ran(op, ops, i, c, flags, st, o) && (op == OP_AND || op == OP_OR || op == OP_XOR) && st.stack == base + [a, b]
    requires |a| == |b|
    ensures Leaves(o, st, base + [seq(|a|, j requires 0 <= j < |a| && |a| == |b| => BitOp(op, a[j], b[j]))])
  {
    hide BitOp, ControlOp, SignatureOp;
    assert o == WithStack(st, BitwiseOp(op, st.stack));
    assert Top(st.stack, 2) == a && Top(st.stack, 1) == b && Drop(st.stack, 2) == base;
  }

  /** AND, OR and XOR of two byte strings of one length, byte by byte. */
  lemma {:induction false} Bitwise(op: Byte, ops: seq<ParsedOp>, i: nat, c: Checker, flags: Flags, st: State, o: Outcome,
      base: Stack, a: Bytes, b: Bytes)
    requires Ran(op, ops, i, c, flags, st, o) && (op == OP_AND || op == OP_OR || op == OP_XOR) && st.stack == base + [a, b]
    ensures |a| != |b| ==> Fails(o, st, InvalidOperandSize)
    ensures |a| == |b| ==>
      exists x :: Leaves(o, st, base + [x]) && |x| == |a| && forall j :: 0 <= j < |x| ==> IsBitwise(op, a[j], b[j], x[j])
  {
    hide BitOp, IsBitwise, Num, Encode, Truth, ControlOp, SignatureOp;
    if |a| == |b| {
      var x := seq(|a|, j requires 0 <= j < |a| && |a| == |b| => BitOp(op, a[j], b[j]));
      assert Leaves(o, st, base + [x]) by { BitwiseRuns(op, ops, i, c, flags, st, o, base, a, b); }
      forall j | 0 <= j < |x|
        ensures IsBitwise(op, a[j], b[j], x[j])
      {
        BitOpMeaning(op, a[j], b[j]);
      }
    }
  }

  predicate IsBitwise(op: Byte, a: Byte, b: Byte, x: Byte) {
    (op == OP_AND ==> x as bv8 == (a as bv8) & (b as bv8)) && (op == OP_OR ==> x as bv8 == (a as bv8) | (b as bv8)) &&
    (op == OP_XOR ==> x as bv8 == (a as bv8) ^ (b as bv8))
  }

  lemma {:induction false} BitOpMeaning(op: Byte, a: Byte, b: Byte)
    requires op == OP_AND || op == OP_OR || op == OP_XOR
    ensures IsBitwise(op, a, b, BitOp(op, a, b))
  {
  }

  /* Numbers */

  /** q is a divided by b, rounded towards zero. */
  predicate IsQuotient(a: int, b: int, q: int) {
    var r := a - b * q;
    -Abs(b) < r < Abs(b) && (a >= 0 ==> r >= 0) && (a <= 0 ==> r <= 0)
  }

  function Abs(a: int): int { if a < 0 then -a else a }

  lemma {:induction false} QuotientExists(a: int, b: int)
    requires b != 0
    ensures IsQuotient(a, b, TruncatedDiv(a, b))
  {
    var x, y := Abs(a), Abs(b);
    var q, r := x / y, x % y;
    assert x == y * q + r;
    assert b * q == (if b < 0 then -(y * q) else y * q) && b * -q == -(b * q);
  }

  lemma {:induction false} QuotientIsUnique(a: int, b: int, p: int, q: int)
    requires IsQuotient(a, b, p) && IsQuotient(a, b, q)
    ensures p == q
  {
    LargeProduct(b, p - q);
    assert b * p - b * q == b * (p - q);
  }

  lemma {:induction false} LargeProduct(b: int, d: int)
    ensures d == 0 || b * d <= -Abs(b) || b * d >= Abs(b)
  {
    if d > 0 {
      Multiple(Abs(b), d);
    } else if d < 0 {
      Multiple(Abs(b), -d);
    }
    assert b * d == -(-b * d) == -(b * -d) == -b * -d;
  }

  lemma {:induction false} Multiple(b: nat, d: nat)
    requires d > 0
    ensures b * d >= b
  {
    assert b * d == b * (d - 1) + b;
  }

  lemma {:induction false} OneNumber(op: Byte, ops: seq<ParsedOp>, i: nat, c: Checker, flags: Flags, st: State, o: Outcome,
      base: Stack, x: Bytes)
    requires Ran(op, ops, i, c, flags, st, o) && st.stack == base + [x] && IsUnary(op)
    ensures !IsNumber(x, flags, 4) ==> Fails(o, st, BadNumber)
    ensures IsNumber(x, flags, 4) && op == OP_1ADD ==> LeavesNumber(o, st, base, Value(x) + 1)
    ensures IsNumber(x, flags, 4) && op == OP_1SUB ==> LeavesNumber(o, st, base, Value(x) - 1)
    ensures IsNumber(x, flags, 4) && op == OP_NEGATE ==> LeavesNumber(o, st, base, -Value(x))
    ensures IsNumber(x, flags, 4) && op == OP_ABS ==> LeavesNumber(o, st, base, Abs(Value(x)))
    ensures IsNumber(x, flags, 4) && op == OP_NOT ==> LeavesBool(o, st, base, Value(x) == 0)
    ensures IsNumber(x, flags, 4) && op == OP_0NOTEQUAL ==> LeavesBool(o, st, base, Value(x) != 0)
  {
    hide Value, IsMinimallyEncoded, Encode;
    NumIff(x, flags, 4);
    if IsNumber(x, flags, 4) {
      var a := Value(x);
      if op == OP_1ADD {
        EncodedNumber(o, st, base, a + 1);
      } else if op == OP_1SUB {
        EncodedNumber(o, st, base, a - 1);
      } else if op == OP_NEGATE {
        EncodedNumber(o, st, base, -a);
      } else if op == OP_ABS {
        EncodedNumber(o, st, base, Abs(a));
      }
    }
  }

  /** Both operands of a binary opcode are numbers. */
  predicate AreNumbers(a: Bytes, b: Bytes, flags: Flags) { IsNumber(a, flags, 4) && IsNumber(b, flags, 4) }

  lemma {:induction false} BinaryRuns(op: Byte, ops: seq<ParsedOp>, i: nat, c: Checker, flags: Flags, st: State, o: Outcome,
      base: Stack, x: Bytes, y: Bytes)
    requires Ran(op, ops, i, c, flags, st, o) && st.stack == base + [x, y] && IsBinary(op)
    ensures !AreNumbers(x, y, flags) ==> Fails(o, st, BadNumber)
    ensures AreNumbers(x, y, flags) ==>
      match BinaryOp(op, Value(x), Value(y))
      case Failure(e) => Fails(o, st, e)
      case Success(r) => Leaves(o, st, if op == OP_NUMEQUALVERIFY then base else base + [r])
  {
    hide Value, IsMinimallyEncoded, BinaryOp, Encode;
    NumIff(x, flags, 4);
    NumIff(y, flags, 4);
  }

  lemma {:induction false} Arithmetic(op: Byte, ops: seq<ParsedOp>, i: nat, c: Checker, flags: Flags, st: State, o: Outcome,
      base: Stack, x: Bytes, y: Bytes)
    requires Ran(op, ops, i, c, flags, st, o) && st.stack == base + [x, y] && AreNumbers(x, y, flags)
    ensures op == OP_ADD ==> LeavesNumber(o, st, base, Value(x) + Value(y))
    ensures op == OP_SUB ==> LeavesNumber(o, st, base, Value(x) - Value(y))
    ensures op == OP_MIN ==> LeavesNumber(o, st, base, if Value(x) < Value(y) then Value(x) else Value(y))
    ensures op == OP_MAX ==> LeavesNumber(o, st, base, if Value(x) > Value(y) then Value(x) else Value(y))
  {
    hide Ran, Value, Encode, IsNumber, LeavesNumber;
    var a, b := Value(x), Value(y);
    if op == OP_ADD {
      BinaryRuns(op, ops, i, c, flags, st, o, base, x, y);
      EncodedNumber(o, st, base, a + b);
    } else if op == OP_SUB {
      BinaryRuns(op, ops, i, c, flags, st, o, base, x, y);
      EncodedNumber(o, st, base, a - b);
    } else if op == OP_MIN {
      BinaryRuns(op, ops, i, c, flags, st, o, base, x, y);
      EncodedNumber(o, st, base, if a < b then a else b);
    } else if op == OP_MAX {
      BinaryRuns(op, ops, i, c, flags, st, o, base, x, y);
      EncodedNumber(o, st, base, if a > b then a else b);
    }
  }

  /** Division rounds towards zero and the remainder makes up for it. */
  lemma {:induction false} Division(op: Byte, ops: seq<ParsedOp>, i: nat, c: Checker, flags: Flags, st: State, o: Outcome,
      base: Stack, x: Bytes, y: Bytes)
    requires Ran(op, ops, i, c, flags, st, o) && st.stack == base + [x, y] && AreNumbers(x, y, flags)
    ensures op == OP_DIV && Value(y) == 0 ==> Fails(o, st, DivByZero)
    ensures op == OP_MOD && Value(y) == 0 ==> Fails(o, st, ModByZero)
    ensures op == OP_DIV && Value(y) != 0 ==> forall q :: IsQuotient(Value(x), Value(y), q) ==> LeavesNumber(o, st, base, q)
    ensures op == OP_MOD && Value(y) != 0 ==>
      forall q :: IsQuotient(Value(x), Value(y), q) ==> LeavesNumber(o, st, base, Value(x) - Value(y) * q)
  {
    hide Ran, Value, Encode, IsNumber, LeavesNumber, TruncatedDiv, IsQuotient;
    if op == OP_DIV || op == OP_MOD {
      BinaryRuns(op, ops, i, c, flags, st, o, base, x, y);
      var a, b := Value(x), Value(y);
      if b != 0 {
        var q := TruncatedDiv(a, b);
        QuotientExists(a, b);
        EncodedNumber(o, st, base, if op == OP_DIV then q else a - b * q);
        forall p | IsQuotient(a, b, p)
          ensures p == q
        {
          QuotientIsUnique(a, b, p, q);
        }
      }
    }
  }

  lemma {:induction false} Comparison(op: Byte, ops: seq<ParsedOp>, i: nat, c: Checker, flags: Flags, st: State, o: Outcome,
      base: Stack, x: Bytes, y: Bytes)
    requires Ran(op, ops, i, c, flags, st, o) && st.stack == base + [x, y] && AreNumbers(x, y, flags)
    ensures op == OP_BOOLAND ==> LeavesBool(o, st, base, Value(x) != 0 && Value(y) != 0)
    ensures op == OP_BOOLOR ==> LeavesBool(o, st, base, Value(x) != 0 || Value(y) != 0)
    ensures op == OP_NUMEQUAL ==> LeavesBool(o, st, base, Value(x) == Value(y))
    ensures op == OP_NUMEQUALVERIFY ==> if Value(x) == Value(y) then Leaves(o, st, base) else Fails(o, st, NumEqualVerify)
    ensures op == OP_NUMNOTEQUAL ==> LeavesBool(o, st, base, Value(x) != Value(y))
    ensures op == OP_LESSTHAN ==> LeavesBool(o, st, base, Value(x) < Value(y))
    ensures op == OP_GREATERTHAN ==> LeavesBool(o, st, base, Value(x) > Value(y))
    ensures op == OP_LESSTHANOREQUAL ==> LeavesBool(o, st, base, Value(x) <= Value(y))
    ensures op == OP_GREATERTHANOREQUAL ==> LeavesBool(o, st, base, Value(x) >= Value(y))
  {
    hide Ran, Value, Encode, IsNumber;
    if OP_BOOLAND <= op <= OP_GREATERTHANOREQUAL {
      BinaryRuns(op, ops, i, c, flags, st, o, base, x, y);
    }
  }

  lemma {:induction false} Within(ops: seq<ParsedOp>, i: nat, c: Checker, flags: Flags, st: State, o: Outcome,
      base: Stack, x: Bytes, low: Bytes, high: Bytes)
    requires Ran(OP_WITHIN, ops, i, c, flags, st, o) && st.stack == base + [x, low, high]
    ensures if AreNumbers(x, low, flags) && IsNumber(high, flags, 4)
      then LeavesBool(o, st, base, Value(low) <= Value(x) < Value(high)) else Fails(o, st, BadNumber)
  {
    hide Value, IsMinimallyEncoded;
    NumIff(x, flags, 4);
    NumIff(low, flags, 4);
    NumIff(high, flags, 4);
  }

  /* What does not run */

  /** How many values an opcode takes or reads; IF and NOTIF complain in words of their own. */
  function Operands(op: Byte, flags: Flags): nat {
    if op in {OP_VERIFY, OP_TOALTSTACK, OP_IFDUP, OP_DROP, OP_DUP, OP_BIN2NUM, OP_SIZE, OP_1ADD, OP_1SUB, OP_NEGATE, OP_ABS,
              OP_NOT, OP_0NOTEQUAL} || OP_RIPEMD160 <= op <= OP_HASH256 then 1
    else if op in {OP_2DROP, OP_2DUP, OP_NIP, OP_OVER, OP_PICK, OP_ROLL, OP_SWAP, OP_TUCK, OP_CAT, OP_SPLIT, OP_NUM2BIN, OP_AND,
                   OP_OR, OP_XOR, OP_EQUAL, OP_EQUALVERIFY, OP_ADD, OP_SUB, OP_DIV, OP_MOD, OP_CHECKSIG, OP_CHECKSIGVERIFY}
                  || OP_BOOLAND <= op <= OP_MAX then 2
    else if op in {OP_3DUP, OP_ROT, OP_WITHIN} then 3
    else if op in {OP_2OVER, OP_2SWAP} then 4
    else if op == OP_2ROT then 6
    else if op == OP_CHECKLOCKTIMEVERIFY then if CheckLockTimeVerify in flags then 1 else 0
    else if op == OP_CHECKSEQUENCEVERIFY then if CheckSequenceVerify in flags then 1 else 0
    else if op == OP_CHECKDATASIG || op == OP_CHECKDATASIGVERIFY then if CheckDataSig in flags then 3 else 0
    else if op == OP_CHECKMULTISIG || op == OP_CHECKMULTISIGVERIFY then 1
    else 0
  }

  lemma {:induction false} TooFewOperands(op: Byte, ops: seq<ParsedOp>, i: nat, c: Checker, flags: Flags, st: State, o: Outcome)
    requires Ran(op, ops, i, c, flags, st, o) && |st.stack| < Operands(op, flags)
    ensures Fails(o, st, InvalidStackOperation)
  {
    hide Num, Truth, Encode, Trimmed, Padded, BitOp, UnaryOp, BinaryOp, PairError, CheckSig, TallyFrom, RemoveAll, FinishMultisig;
  }

  /** The opcodes that do not touch the stack, and those that nothing is defined for. */
  lemma {:induction false} Others(op: Byte, ops: seq<ParsedOp>, i: nat, c: Checker, flags: Flags, st: State, o: Outcome)
    requires Ran(op, ops, i, c, flags, st, o)
    ensures op == OP_NOP ==> o == Running(st)
    ensures op == OP_NOP1 || OP_NOP4 <= op <= OP_NOP10 ==>
      if DiscourageUpgradableNops in flags then Fails(o, st, DiscouragedNop) else o == Running(st)
    ensures op == OP_CODESEPARATOR ==> o == Running(st.(begin := i))
    ensures op == OP_RETURN ==> Fails(o, st, OpReturn)
    ensures op in {0x50, 0x62, 0x65, 0x66, 0x89, 0x8a} || op > OP_CHECKDATASIGVERIFY ==> Fails(o, st, BadOpCode)
  {
    hide LockOp, IfOp, PlainOp, CheckSigOp, CheckDataSigOp, MultisigOp;
  }

  /** The limits around every opcode, executed or skipped. */
  lemma {:induction false} Limits(ops: seq<ParsedOp>, i: nat, c: Checker, flags: Flags, st: State)
    requires i < |ops|
    ensures var e, o := ops[i], Step(ops, i, c, flags, st);
      if |e.data| > 520 then Fails(o, st, PushSize)
      else if e.op > 0x60 && st.opCount >= 201 then Fails(o, st, ScriptError.OpCount)
      else if e.op in {OP_INVERT, OP_2MUL, OP_2DIV, OP_MUL, OP_LSHIFT, OP_RSHIFT} then Fails(o, st, DisabledOpCode)
      else
        var next := Execute(ops, i, c, flags, if e.op > 0x60 then st.(opCount := st.opCount + 1) else st);
        if next.Running? && |next.state.stack| + |next.state.alt| > 1000 then Fails(o, next.state, StackSize) else o == next
  {
    hide Execute;
  }

  predicate LockOn(op: Byte, flags: Flags) {
    (op == OP_CHECKLOCKTIMEVERIFY && CheckLockTimeVerify in flags) ||
    (op == OP_CHECKSEQUENCEVERIFY && CheckSequenceVerify in flags)
  }

  /** The two lock checks: what they demand of the top value, which stays, and what they are when they are switched off. */
  lemma {:induction false} Locked(op: Byte, ops: seq<ParsedOp>, i: nat, c: Checker, flags: Flags, st: State, o: Outcome,
      base: Stack, x: Bytes)
    requires Ran(op, ops, i, c, flags, st, o) && (op == OP_CHECKLOCKTIMEVERIFY || op == OP_CHECKSEQUENCEVERIFY)
    requires st.stack == base + [x]
    ensures !LockOn(op, flags) ==> if DiscourageUpgradableNops in flags then Fails(o, st, DiscouragedNop) else o == Running(st)
    ensures LockOn(op, flags) && !IsNumber(x, flags, 5) ==> Fails(o, st, BadNumber)
    ensures LockOn(op, flags) && IsNumber(x, flags, 5) && Value(x) < 0 ==> Fails(o, st, NegativeLockTime)
    ensures LockOn(op, flags) && IsNumber(x, flags, 5) && Value(x) >= 0 ==>
      var met := if op == OP_CHECKLOCKTIMEVERIFY then c.lockTimeOk(Value(x))
                 else Value(x) / 0x8000_0000 % 2 == 1 || c.sequenceOk(Value(x));
      if met then o == Running(st) else Fails(o, st, UnsatisfiedLockTime)
  {
    hide Value, IsMinimallyEncoded, IfOp;
    NumIff(x, flags, 5);
  }
}
