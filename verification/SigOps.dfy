/** Counting signature operations bounds the signature checks of every run (model/script GetSigOpCount). */
module SigOps {
  import opened Wrappers
  import opened Basics
  import opened ScriptNum
  import opened ScriptOps
  import opened ScriptFlags
  import opened Multisig
  import opened ScriptEval

  predicate IsSmallNumber(op: Byte) { OP_1 <= op <= OP_16 }

  /** What the opcode at i adds to the count. */
  function SigOpsAt(ops: seq<ParsedOp>, i: nat, flags: Flags, accurate: bool): nat
    requires i < |ops|
  {
    var op := ops[i].op;
    if op == OP_CHECKSIG || op == OP_CHECKSIGVERIFY then 1
    else if op == OP_CHECKDATASIG || op == OP_CHECKDATASIGVERIFY then if CheckDataSig in flags then 1 else 0
    else if IsMultisig(op) then
      if accurate && i > 0 && IsSmallNumber(ops[i - 1].op) then ops[i - 1].op - (OP_1 - 1) else MAX_PUBKEYS_PER_MULTISIG
    else 0
  }

  function SigOpsTo(ops: seq<ParsedOp>, flags: Flags, accurate: bool, i: nat): nat
    requires i <= |ops|
  {
    if i == 0 then 0 else SigOpsTo(ops, flags, accurate, i - 1) + SigOpsAt(ops, i - 1, flags, accurate)
  }

  method GetSigOpCount(s: Script, flags: Flags, accurate: bool) returns (n: nat)
    ensures n == SigOpsTo(s.ops, flags, accurate, |s.ops|)
  {
    n := 0;
    var lastOpcode: Byte := 0;
    for i := 0 to |s.ops|
      invariant n == SigOpsTo(s.ops, flags, accurate, i) && lastOpcode == if i == 0 then 0 else s.ops[i - 1].op
    {
      var op := s.ops[i].op;
      if op == OP_CHECKSIG || op == OP_CHECKSIGVERIFY {
        n := n + 1;
      } else if op == OP_CHECKDATASIG || op == OP_CHECKDATASIGVERIFY {
        if CheckDataSig in flags {
          n := n + 1;
        }
      } else if op == OP_CHECKMULTISIG || op == OP_CHECKMULTISIGVERIFY {
        if accurate && lastOpcode >= OP_1 && lastOpcode <= OP_16 {
          n := n + (lastOpcode - (OP_1 - 1));
        } else {
          n := n + MAX_PUBKEYS_PER_MULTISIG;
        }
      }
      lastOpcode := op;
    }
  }

  /* The count, by positions */

  /** The positions before n of opcodes that check one signature. */
  ghost function Singles(ops: seq<ParsedOp>, flags: Flags, n: nat): set<nat>
    requires n <= |ops|
  {
    set i: nat | i < n && (ops[i].op in {OP_CHECKSIG, OP_CHECKSIGVERIFY} ||
                           (ops[i].op in {OP_CHECKDATASIG, OP_CHECKDATASIGVERIFY} && CheckDataSig in flags))
  }

  /** A multisignature opcode with the number of its keys written just before it. */
  predicate IsNumbered(ops: seq<ParsedOp>, i: nat)
    requires i < |ops|
  {
    i > 0 && ops[i].op in {OP_CHECKMULTISIG, OP_CHECKMULTISIGVERIFY} && 0x51 <= ops[i - 1].op <= 0x60
  }

  ghost function Unnumbered(ops: seq<ParsedOp>, accurate: bool, n: nat): set<nat>
    requires n <= |ops|
  {
    set i: nat | i < n && ops[i].op in {OP_CHECKMULTISIG, OP_CHECKMULTISIGVERIFY} && !(accurate && IsNumbered(ops, i))
  }

  /** The keys of the others, each as a position and a number. */
  ghost function Keys(ops: seq<ParsedOp>, accurate: bool, n: nat): set<(nat, nat)>
    requires n <= |ops|
  {
    set i: nat, k: nat | i < n && k <= 16 && accurate && IsNumbered(ops, i) && 1 <= k <= ops[i - 1].op - 0x50 :: (i, k)
  }

  lemma {:induction false} PairsAt(i: nat, m: nat)
    ensures |set k: nat | 1 <= k <= m :: (i, k)| == m
  {
    if m > 0 {
      PairsAt(i, m - 1);
      assert (set k: nat | 1 <= k <= m :: (i, k)) == (set k: nat | 1 <= k <= m - 1 :: (i, k)) + {(i, m)};
    }
  }

  lemma {:induction false} KeysGrow(ops: seq<ParsedOp>, accurate: bool, n: nat)
    requires n < |ops|
    ensures |Keys(ops, accurate, n + 1)| ==
      |Keys(ops, accurate, n)| + if accurate && IsNumbered(ops, n) then ops[n - 1].op - 0x50 else 0
  {
    if accurate && IsNumbered(ops, n) {
      var m: nat := ops[n - 1].op - 0x50;
      var more := set k: nat | 1 <= k <= m :: (n, k);
      PairsAt(n, m);
      assert Keys(ops, accurate, n + 1) == Keys(ops, accurate, n) + more;
      assert Keys(ops, accurate, n) !! more;
    } else {
      assert Keys(ops, accurate, n + 1) == Keys(ops, accurate, n);
    }
  }

  lemma {:induction false} SinglesGrow(ops: seq<ParsedOp>, flags: Flags, n: nat)
    requires n < |ops|
    ensures |Singles(ops, flags, n + 1)| == |Singles(ops, flags, n)| +
      if ops[n].op in {OP_CHECKSIG, OP_CHECKSIGVERIFY} ||
         (ops[n].op in {OP_CHECKDATASIG, OP_CHECKDATASIGVERIFY} && CheckDataSig in flags) then 1 else 0
  {
    var more := if n in Singles(ops, flags, n + 1) then {n} else {};
    assert Singles(ops, flags, n + 1) == Singles(ops, flags, n) + more;
  }

  lemma {:induction false} UnnumberedGrow(ops: seq<ParsedOp>, accurate: bool, n: nat)
    requires n < |ops|
    ensures |Unnumbered(ops, accurate, n + 1)| == |Unnumbered(ops, accurate, n)| +
      if ops[n].op in {OP_CHECKMULTISIG, OP_CHECKMULTISIGVERIFY} && !(accurate && IsNumbered(ops, n)) then 1 else 0
  {
    hide IsNumbered;
    var more := if n in Unnumbered(ops, accurate, n + 1) then {n} else {};
    assert Unnumbered(ops, accurate, n + 1) == Unnumbered(ops, accurate, n) + more;
  }

  /**
   The count is exact: one for every single check, twenty for every multisignature without a number, and for the others
   one for every key.
   */
  lemma {:induction false} CountIsExact(ops: seq<ParsedOp>, flags: Flags, accurate: bool, n: nat)
    requires n <= |ops|
    ensures SigOpsTo(ops, flags, accurate, n) ==
      |Singles(ops, flags, n)| + 20 * |Unnumbered(ops, accurate, n)| + |Keys(ops, accurate, n)|
  {
    if n == 0 {
      assert Singles(ops, flags, 0) == {} && Unnumbered(ops, accurate, 0) == {} && Keys(ops, accurate, 0) == {};
    } else {
      hide Singles, Unnumbered, Keys;
      CountIsExact(ops, flags, accurate, n - 1);
      KeysGrow(ops, accurate, n - 1);
      SinglesGrow(ops, flags, n - 1);
      UnnumberedGrow(ops, accurate, n - 1);
    }
  }

  function ChecksOf(o: Outcome): nat {
    if o.Running? then o.state.checks else o.checks
  }

  /** A small number just executed is on top of the stack. */
  ghost predicate NumberOnTop(ops: seq<ParsedOp>, i: nat, st: State)
    requires i <= |ops|
  {
    i > 0 && IsSmallNumber(ops[i - 1].op) && Executing(st) ==>
      |st.stack| > 0 && Top(st.stack, 1) == Encode(ops[i - 1].op - (OP_1 - 1))
  }

  lemma {:induction false} SmallNumbersAreShort(n: nat)
    requires 1 <= n <= 16
    ensures Num(Encode(n), true, DEFAULT_MAX_NUM_SIZE) == Some(n) == Num(Encode(n), false, DEFAULT_MAX_NUM_SIZE)
  {
    EncodeRoundTrip(n);
    assert Digits(n) == [n] by {
      assert n / 256 == 0 && n % 256 == n;
      assert Digits(0) == [];
    }
    assert |Encode(n)| == 1;
  }

  lemma {:induction false} SmallNumberIsPushed(ops: seq<ParsedOp>, i: nat, c: Checker, flags: Flags, st: State)
    requires i < |ops| && Step(ops, i, c, flags, st).Running?
    ensures NumberOnTop(ops, i + 1, Step(ops, i, c, flags, st).state)
  {
    hide SignatureOp, ControlOp, Encode, IsMultisig;
    var e := ops[i];
    if IsSmallNumber(e.op) {
      assert IsPlain(e.op) && !IsControl(e.op);
    }
  }

  /* One step */

  lemma {:induction false} MultisigChecks(op: Byte, ops: seq<ParsedOp>, c: Checker, flags: Flags, st: State)
    ensures ChecksOf(MultisigOp(op, ops, c, flags, st)) <= st.checks + MAX_PUBKEYS_PER_MULTISIG
    ensures forall n :: |st.stack| > 0 && Num(Top(st.stack, 1), MinimalData in flags, DEFAULT_MAX_NUM_SIZE) == Some(n) && n >= 0 ==>
              ChecksOf(MultisigOp(op, ops, c, flags, st)) <= st.checks + n
  {
    hide TallyFrom, RemoveAll, CodeFrom, Num;
    var args := ReadMultisig(st.stack, MinimalData in flags, st.opCount);
    if args.Success? {
      var a := args.value;
      OneCheckPerKey(c, flags, RemoveAll(CodeFrom(ops, st.begin), a.sigs), a.keys, a.sigs, 0, 0);
    }
  }

  lemma {:induction false} SignatureOpChecks(ops: seq<ParsedOp>, i: nat, c: Checker, flags: Flags, st: State,
      accurate: bool)
    requires i < |ops| && NumberOnTop(ops, i, st) && Executing(st)
    ensures ChecksOf(SignatureOp(ops[i].op, ops, c, flags, st)) <= st.checks + SigOpsAt(ops, i, flags, accurate)
  {
    hide PairError, CheckSig, RemoveOpcodeByData, MultisigOp, Encode;
    var op := ops[i].op;
    if IsMultisig(op) {
      MultisigChecks(op, ops, c, flags, st);
      if i > 0 && IsSmallNumber(ops[i - 1].op) {
        SmallNumbersAreShort(ops[i - 1].op - (OP_1 - 1));
      }
    }
  }

  lemma {:induction false} OtherOpsCheckNothing(ops: seq<ParsedOp>, i: nat, c: Checker, flags: Flags, st: State,
      executing: bool)
    requires i < |ops|
    ensures ChecksOf(PlainOp(ops[i].op, c, flags, st)) == st.checks
    ensures ChecksOf(ControlOp(ops[i].op, i, c, flags, st, executing)) == st.checks
  {
    hide StackOp, SpliceOp, BitwiseOp, NumericOp, Encode, Truth, Num;
  }

  lemma {:induction false} StepChecks(ops: seq<ParsedOp>, i: nat, c: Checker, flags: Flags, st: State, accurate: bool)
    requires i < |ops| && NumberOnTop(ops, i, st)
    ensures ChecksOf(Step(ops, i, c, flags, st)) <= st.checks + SigOpsAt(ops, i, flags, accurate)
  {
    hide PlainOp, ControlOp, SignatureOp, SigOpsAt, CheckMinimalDataPush;
    var before := BeforeOp(ops[i], st);
    if before.Running? {
      var ready := before.state;
      OtherOpsCheckNothing(ops, i, c, flags, ready, Executing(ready));
      if Executing(ready) {
        SignatureOpChecks(ops, i, c, flags, ready, accurate);
      } else if OP_IF <= ops[i].op <= OP_ENDIF {
        UnexecutedIsBad(ops[i].op, ops, c, flags, ready);
      }
    }
  }

  lemma {:induction false} UnexecutedIsBad(op: Byte, ops: seq<ParsedOp>, c: Checker, flags: Flags, st: State)
    requires OP_IF <= op <= OP_ENDIF
    ensures SignatureOp(op, ops, c, flags, st) == Failed(BadOpCode, st.checks)
  {
  }

  /* Whole scripts */

  lemma {:induction false} RunChecks(ops: seq<ParsedOp>, c: Checker, flags: Flags, stack: Stack, i: nat, accurate: bool)
    requires i <= |ops|
    ensures var o := RunTo(ops, c, flags, stack, i);
            ChecksOf(o) <= SigOpsTo(ops, flags, accurate, i) && (o.Running? ==> NumberOnTop(ops, i, o.state))
  {
    hide Step, NumberOnTop, SigOpsAt;
    if i == 0 {
      NothingYet(ops, stack);
    } else {
      RunChecks(ops, c, flags, stack, i - 1, accurate);
      var before := RunTo(ops, c, flags, stack, i - 1);
      if before.Running? {
        StepChecks(ops, i - 1, c, flags, before.state, accurate);
        if Step(ops, i - 1, c, flags, before.state).Running? {
          SmallNumberIsPushed(ops, i - 1, c, flags, before.state);
        }
      }
    }
  }

  lemma {:induction false} NothingYet(ops: seq<ParsedOp>, stack: Stack)
    ensures NumberOnTop(ops, 0, State(stack, [], [], 0, 0, 0))
  {
  }

  /** Every run, whether it succeeds or fails, verifies at most as many signatures as the script's count says. */
  lemma {:induction false} ChecksAreCounted(s: Script, c: Checker, flags: Flags, stack: Stack, accurate: bool)
    ensures ChecksOf(Eval(s, c, flags, stack)) <= SigOpsTo(s.ops, flags, accurate, |s.ops|)
  {
    hide RunTo, SigOpsTo;
    RunChecks(s.ops, c, flags, stack, |s.ops|, accurate);
  }

  lemma {:induction false} AccurateIsSmaller(ops: seq<ParsedOp>, flags: Flags, i: nat)
    requires i <= |ops|
    ensures SigOpsTo(ops, flags, true, i) <= SigOpsTo(ops, flags, false, i)
  {
    if i > 0 {
      AccurateIsSmaller(ops, flags, i - 1);
    }
  }
}
