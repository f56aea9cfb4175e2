/** The script interpreter: EvalScript, VerifyScript and the fallback of checkScript. */
module ScriptEval {
  import opened Wrappers
  import opened Basics
  import opened ScriptNum
  import opened ScriptOps
  import opened ScriptFlags
  import opened Multisig

  datatype Script = Script(data: Bytes, ops: seq<ParsedOp>, bad: bool) {
    predicate IsPushOnly() {
      !bad && forall i :: 0 <= i < |ops| ==> ops[i].op <= OP_16
    }

    predicate IsPayToScriptHash() {
      |data| == 23 && data[0] == OP_HASH160 && data[1] == 0x14 && data[22] == OP_EQUAL
    }
  }

  /** The interpreter's variables; checks counts the signature verifications made so far. */
  datatype State = State(stack: Stack, alt: Stack, exec: seq<bool>, opCount: nat, begin: nat, checks: nat)

  datatype Outcome = Running(state: State) | Failed(error: ScriptError, checks: nat)

  function WithStack(st: State, r: OpResult): Outcome {
    match r
    case Failure(e) => Failed(e, st.checks)
    case Success(s) => Running(st.(stack := s))
  }

  /** The script from the last code separator on. */
  function CodeFrom(ops: seq<ParsedOp>, begin: nat): seq<ParsedOp> {
    if begin <= |ops| then ops[begin..] else []
  }

  function RemoveAll(ops: seq<ParsedOp>, sigs: seq<Bytes>): seq<ParsedOp>
    decreases |sigs|
  {
    if sigs == [] then ops else RemoveAll(RemoveOpcodeByData(ops, sigs[0]), sigs[1..])
  }

  /* Control */

  /** CHECKLOCKTIMEVERIFY and CHECKSEQUENCEVERIFY: a check of the top number, or a NOP. */
  function LockOp(op: Byte, c: Checker, flags: Flags, st: State): Outcome {
    var enabled := if op == OP_CHECKLOCKTIMEVERIFY then CheckLockTimeVerify in flags else CheckSequenceVerify in flags;
    if !enabled then if DiscourageUpgradableNops in flags then Failed(DiscouragedNop, st.checks) else Running(st)
    else if |st.stack| < 1 then Failed(InvalidStackOperation, st.checks)
    else
      var n := Num(Top(st.stack, 1), MinimalData in flags, 5);
      if n.None? then Failed(BadNumber, st.checks)
      else if n.value < 0 then Failed(NegativeLockTime, st.checks)
      else if op == OP_CHECKSEQUENCEVERIFY && (n.value / 0x8000_0000) % 2 == 1 then Running(st)
      else if !(if op == OP_CHECKLOCKTIMEVERIFY then c.lockTimeOk(n.value) else c.sequenceOk(n.value))
      then Failed(UnsatisfiedLockTime, st.checks)
      else Running(st)
  }

  predicate MinimalIfOk(b: Bytes, flags: Flags) {
    MinimalIf in flags ==> |b| <= 1 && (|b| == 1 ==> b[0] == 1)
  }

  function IfOp(op: Byte, flags: Flags, st: State, executing: bool): Outcome {
    if !executing then Running(st.(exec := st.exec + [false]))
    else if |st.stack| < 1 then Failed(UnbalancedConditional, st.checks)
    else if !MinimalIfOk(Top(st.stack, 1), flags) then Failed(MinimalIfArgument, st.checks)
    else
      var value := Truth(Top(st.stack, 1)) != (op == OP_NOTIF);
      Running(st.(exec := st.exec + [value], stack := Drop(st.stack, 1)))
  }

  predicate IsControl(op: Byte) {
    op == OP_NOP || op == OP_IF || op == OP_NOTIF || op == OP_ELSE || op == OP_ENDIF || op == OP_VERIFY || op == OP_RETURN ||
    op == OP_CODESEPARATOR || (OP_NOP1 <= op <= OP_NOP10)
  }

  function ControlOp(op: Byte, i: nat, c: Checker, flags: Flags, st: State, executing: bool): Outcome {
    if op == OP_NOP then Running(st)
    else if op == OP_CHECKLOCKTIMEVERIFY || op == OP_CHECKSEQUENCEVERIFY then LockOp(op, c, flags, st)
    else if OP_NOP1 <= op <= OP_NOP10 then
      if DiscourageUpgradableNops in flags then Failed(DiscouragedNop, st.checks) else Running(st)
    else if op == OP_IF || op == OP_NOTIF then IfOp(op, flags, st, executing)
    else if op == OP_ELSE then
      if st.exec == [] then Failed(UnbalancedConditional, st.checks)
      else Running(st.(exec := st.exec[..|st.exec| - 1] + [!st.exec[|st.exec| - 1]]))
    else if op == OP_ENDIF then
      if st.exec == [] then Failed(UnbalancedConditional, st.checks) else Running(st.(exec := st.exec[..|st.exec| - 1]))
    else if op == OP_VERIFY then
      if |st.stack| < 1 then Failed(InvalidStackOperation, st.checks)
      else if Truth(Top(st.stack, 1)) then Running(st.(stack := Drop(st.stack, 1)))
      else Failed(VerifyFailed, st.checks)
    else if op == OP_CODESEPARATOR then Running(st.(begin := i))
    else Failed(OpReturn, st.checks)
  }

  /* Signatures */

  /** Pushes the result, or for the verifying form demands it. */
  function Answer(st: State, rest: Stack, success: bool, verify: bool, e: ScriptError): Outcome {
    if !verify then Running(st.(stack := rest + [Bool(success)]))
    else if success then Running(st.(stack := rest))
    else Failed(e, st.checks)
  }

  function CheckSigOp(op: Byte, ops: seq<ParsedOp>, c: Checker, flags: Flags, st: State): Outcome {
    if |st.stack| < 2 then Failed(InvalidStackOperation, st.checks)
    else
      var sig, key := Top(st.stack, 2), Top(st.stack, 1);
      var e := PairError(c, sig, key, flags);
      if e.Some? then Failed(e.value, st.checks)
      else
        var checked := st.(checks := st.checks + 1);
        match CheckSig(c, sig, key, RemoveOpcodeByData(CodeFrom(ops, st.begin), sig), flags)
        case Failure(e) => Failed(e, checked.checks)
        case Success(ok) =>
          if !ok && NullFail in flags && |sig| > 0 then Failed(SigNullFail, checked.checks)
          else Answer(checked, Drop(st.stack, 2), ok, op == OP_CHECKSIGVERIFY, CheckSigVerify)
  }

  function CheckDataSigOp(op: Byte, c: Checker, flags: Flags, st: State): Outcome {
    if CheckDataSig !in flags then Failed(BadOpCode, st.checks)
    else if |st.stack| < 3 then Failed(InvalidStackOperation, st.checks)
    else
      var sig, message, key := Top(st.stack, 3), Top(st.stack, 2), Top(st.stack, 1);
      var e := DataSignatureError(c, sig, flags);
      if e.Some? then Failed(e.value, st.checks)
      else if PubKeyError(c, key, flags).Some? then Failed(PubKeyError(c, key, flags).value, st.checks)
      else
        var checked := st.(checks := st.checks + if |sig| > 0 then 1 else 0);
        var ok := |sig| > 0 && c.verifyData(sig, message, key);
        if !ok && NullFail in flags && |sig| > 0 then Failed(SigNullFail, checked.checks)
        else Answer(checked, Drop(st.stack, 3), ok, op == OP_CHECKDATASIGVERIFY, CheckDataSigVerify)
  }

  /** The operands of CHECKMULTISIG, keys and signatures in the order they are tried. */
  datatype MultisigArgs = MultisigArgs(keys: seq<Bytes>, sigs: seq<Bytes>, dummy: Bytes, rest: Stack, opCount: nat)

  function ReadMultisig(s: Stack, minimal: bool, opCount: nat): (r: Result<MultisigArgs, ScriptError>)
    ensures r.Success? ==> |r.value.sigs| <= |r.value.keys| <= MAX_PUBKEYS_PER_MULTISIG
    ensures r.Success? ==> |s| > 0 && Num(Top(s, 1), minimal, DEFAULT_MAX_NUM_SIZE) == Some(|r.value.keys|)
  {
    if |s| < 1 then Failure(InvalidStackOperation)
    else
      var n := Num(Top(s, 1), minimal, DEFAULT_MAX_NUM_SIZE);
      if n.None? then Failure(BadNumber)
      else if n.value < 0 || n.value > MAX_PUBKEYS_PER_MULTISIG then Failure(PubKeyCount)
      else if opCount + n.value > MAX_OPS_PER_SCRIPT then Failure(OpCount)
      else if |s| < n.value + 2 then Failure(InvalidStackOperation)
      else
        var m := Num(Top(s, n.value + 2), minimal, DEFAULT_MAX_NUM_SIZE);
        if m.None? then Failure(BadNumber)
        else if m.value < 0 || m.value > n.value then Failure(SigCount)
        else if |s| < n.value + m.value + 3 then Failure(InvalidStackOperation)
        else
          var size := n.value + m.value + 3;
          Success(MultisigArgs(seq(n.value, k requires 0 <= k < n.value => Top(s, 2 + k)),
                               seq(m.value, k requires 0 <= k < m.value => Top(s, n.value + 3 + k)),
                               Top(s, size), Drop(s, size), opCount + n.value))
  }

  function FinishMultisig(op: Byte, a: MultisigArgs, t: Tally, flags: Flags, st: State): Outcome {
    var checked := st.(checks := st.checks + t.checks, opCount := a.opCount);
    match t
    case Stopped(e, _) => Failed(e, checked.checks)
    case Counted(success, _) =>
      if !success && NullFail in flags && exists j :: 0 <= j < |a.sigs| && |a.sigs[j]| > 0
      then Failed(SigNullFail, checked.checks)
      else if NullDummy in flags && |a.dummy| > 0 then Failed(SigNullDummy, checked.checks)
      else Answer(checked, a.rest, success, op == OP_CHECKMULTISIGVERIFY, CheckMultiSigVerify)
  }

  function MultisigOp(op: Byte, ops: seq<ParsedOp>, c: Checker, flags: Flags, st: State): Outcome {
    match ReadMultisig(st.stack, MinimalData in flags, st.opCount)
    case Failure(e) => Failed(e, st.checks)
    case Success(a) =>
      var code := RemoveAll(CodeFrom(ops, st.begin), a.sigs);
      FinishMultisig(op, a, TallyFrom(c, flags, code, a.keys, a.sigs, 0, 0), flags, st)
  }

  predicate IsMultisig(op: Byte) { op == OP_CHECKMULTISIG || op == OP_CHECKMULTISIGVERIFY }

  /* One opcode */

  function SignatureOp(op: Byte, ops: seq<ParsedOp>, c: Checker, flags: Flags, st: State): Outcome {
    if op == OP_CHECKSIG || op == OP_CHECKSIGVERIFY then CheckSigOp(op, ops, c, flags, st)
    else if op == OP_CHECKDATASIG || op == OP_CHECKDATASIGVERIFY then CheckDataSigOp(op, c, flags, st)
    else if IsMultisig(op) then MultisigOp(op, ops, c, flags, st)
    else Failed(BadOpCode, st.checks)
  }

  /** The opcodes that neither branch nor verify signatures. */
  function PlainOp(op: Byte, c: Checker, flags: Flags, st: State): Outcome {
    var minimal := MinimalData in flags;
    if op == OP_1NEGATE || (OP_1 <= op <= OP_16) then Running(st.(stack := st.stack + [Encode(op - (OP_1 - 1))]))
    else if OP_TOALTSTACK <= op <= OP_TUCK then
      match StackOp(op, st.stack, st.alt, minimal)
      case Failure(e) => Failed(e, st.checks)
      case Success(r) => Running(st.(stack := r.0, alt := r.1))
    else if OP_CAT <= op <= OP_SIZE then WithStack(st, SpliceOp(op, st.stack, minimal))
    else if OP_AND <= op <= OP_EQUALVERIFY then WithStack(st, BitwiseOp(op, st.stack))
    else if OP_1ADD <= op <= OP_WITHIN then WithStack(st, NumericOp(op, st.stack, minimal))
    else if |st.stack| < 1 then Failed(InvalidStackOperation, st.checks)
    else Running(st.(stack := Drop(st.stack, 1) + [c.hash(op, Top(st.stack, 1))]))
  }

  predicate IsPlain(op: Byte) {
    op == OP_1NEGATE || (OP_1 <= op <= OP_16) || (OP_TOALTSTACK <= op <= OP_EQUALVERIFY && op != OP_INVERT) ||
    (OP_1ADD <= op <= OP_HASH256)
  }

  function Dispatch(ops: seq<ParsedOp>, i: nat, c: Checker, flags: Flags, st: State, executing: bool): Outcome
    requires i < |ops|
  {
    var op := ops[i].op;
    if IsControl(op) then ControlOp(op, i, c, flags, st, executing)
    else if IsPlain(op) then PlainOp(op, c, flags, st)
    else SignatureOp(op, ops, c, flags, st)
  }

  predicate Executing(st: State) { false !in st.exec }

  function Execute(ops: seq<ParsedOp>, i: nat, c: Checker, flags: Flags, st: State): Outcome
    requires i < |ops|
  {
    var e := ops[i];
    if Executing(st) && e.op <= OP_PUSHDATA4 then
      if MinimalData in flags && !CheckMinimalDataPush(e) then Failed(MinimalDataPush, st.checks)
      else Running(st.(stack := st.stack + [e.data]))
    else if Executing(st) || (OP_IF <= e.op <= OP_ENDIF) then Dispatch(ops, i, c, flags, st, Executing(st))
    else Running(st)
  }

  /** The limits checked before an opcode runs. */
  function BeforeOp(e: ParsedOp, st: State): Outcome {
    var n := if e.op > OP_16 then st.opCount + 1 else st.opCount;
    if |e.data| > MAX_SCRIPT_ELEMENT_SIZE then Failed(PushSize, st.checks)
    else if e.op > OP_16 && n > MAX_OPS_PER_SCRIPT then Failed(OpCount, st.checks)
    else if IsOpCodeDisabled(e.op) then Failed(DisabledOpCode, st.checks)
    else Running(st.(opCount := n))
  }

  function AfterOp(o: Outcome): Outcome {
    if o.Running? && |o.state.stack| + |o.state.alt| > MAX_STACK_SIZE then Failed(StackSize, o.state.checks) else o
  }

  function Step(ops: seq<ParsedOp>, i: nat, c: Checker, flags: Flags, st: State): Outcome
    requires i < |ops|
  {
    match BeforeOp(ops[i], st)
    case Failed(e, n) => Failed(e, n)
    case Running(ready) => AfterOp(Execute(ops, i, c, flags, ready))
  }

  /* Whole scripts */

  function RunTo(ops: seq<ParsedOp>, c: Checker, flags: Flags, stack: Stack, i: nat): Outcome
    requires i <= |ops|
  {
    if i == 0 then Running(State(stack, [], [], 0, 0, 0))
    else
      match RunTo(ops, c, flags, stack, i - 1)
      case Failed(e, n) => Failed(e, n)
      case Running(st) => Step(ops, i - 1, c, flags, st)
  }

  function Eval(s: Script, c: Checker, flags: Flags, stack: Stack): Outcome {
    if s.bad then Failed(BadOpCode, 0)
    else if |s.data| > MAX_SCRIPT_SIZE then Failed(ScriptSize, 0)
    else
      match RunTo(s.ops, c, flags, stack, |s.ops|)
      case Failed(e, n) => Failed(e, n)
      case Running(st) => if st.exec != [] then Failed(UnbalancedConditional, st.checks) else Running(st)
  }

  lemma {:induction false} FailureSticks(ops: seq<ParsedOp>, c: Checker, flags: Flags, stack: Stack, i: nat, n: nat)
    requires i <= n <= |ops| && RunTo(ops, c, flags, stack, i).Failed?
    ensures RunTo(ops, c, flags, stack, n) == RunTo(ops, c, flags, stack, i)
  {
    if i < n {
      FailureSticks(ops, c, flags, stack, i, n - 1);
    }
  }

  /** The multisignature opcode with its loop run as a loop. */
  method CheckMultisig(op: Byte, ops: seq<ParsedOp>, c: Checker, flags: Flags, st: State) returns (o: Outcome)
    ensures o == MultisigOp(op, ops, c, flags, st)
  {
    var args := ReadMultisig(st.stack, MinimalData in flags, st.opCount);
    if args.Failure? {
      return Failed(args.error, st.checks);
    }
    var a := args.value;
    var code := RemoveAll(CodeFrom(ops, st.begin), a.sigs);
    var tally := CountSignatures(c, flags, code, a.keys, a.sigs);
    o := FinishMultisig(op, a, tally, flags, st);
  }

  method ExecuteOp(ops: seq<ParsedOp>, i: nat, c: Checker, flags: Flags, st: State) returns (o: Outcome)
    requires i < |ops|
    ensures o == Execute(ops, i, c, flags, st)
  {
    if Executing(st) && IsMultisig(ops[i].op) {
      hide MultisigOp, ControlOp, PlainOp;
      o := CheckMultisig(ops[i].op, ops, c, flags, st);
    } else {
      hide Dispatch;
      o := Execute(ops, i, c, flags, st);
    }
  }

  method StepOp(ops: seq<ParsedOp>, i: nat, c: Checker, flags: Flags, st: State) returns (o: Outcome)
    requires i < |ops|
    ensures o == Step(ops, i, c, flags, st)
  {
    hide Execute, BeforeOp, AfterOp;
    o := BeforeOp(ops[i], st);
    if o.Failed? {
      return;
    }
    o := ExecuteOp(ops, i, c, flags, o.state);
    o := AfterOp(o);
  }

  /** EvalScript: the loop over the opcodes. */
  method EvalScript(s: Script, c: Checker, flags: Flags, stack: Stack) returns (o: Outcome)
    ensures o == Eval(s, c, flags, stack)
  {
    hide Step;
    if s.bad {
      return Failed(BadOpCode, 0);
    }
    if |s.data| > MAX_SCRIPT_SIZE {
      return Failed(ScriptSize, 0);
    }
    var st := State(stack, [], [], 0, 0, 0);
    for i := 0 to |s.ops|
      invariant RunTo(s.ops, c, flags, stack, i) == Running(st)
    {
      o := StepOp(s.ops, i, c, flags, st);
      if o.Failed? {
        FailureSticks(s.ops, c, flags, stack, i + 1, |s.ops|);
        return;
      }
      st := o.state;
    }
    if st.exec != [] {
      return Failed(UnbalancedConditional, st.checks);
    }
    o := Running(st);
  }

  /* Spending an output */

  datatype Verdict = Accepted(stack: Stack) | Rejected(error: ScriptError) | Panicked

  function EvalTo(s: Script, c: Checker, flags: Flags, stack: Stack): Result<Stack, ScriptError> {
    match Eval(s, c, flags, stack)
    case Failed(e, _) => Failure(e)
    case Running(st) => Success(st.stack)
  }

  /** The stack after an evaluation that must end with a true value. */
  function EvalTrue(s: Script, c: Checker, flags: Flags, stack: Stack): Result<Stack, ScriptError> {
    var r := EvalTo(s, c, flags, stack);
    if r.Failure? then r
    else if r.value == [] || !Truth(Top(r.value, 1)) then Failure(EvalFalse)
    else r
  }

  function EffectiveFlags(flags: Flags): Flags {
    if SigHashForkID in flags then flags + {StrictEnc} else flags
  }

  /** VerifyScript; parse reads the redeem script of a pay-to-script-hash output. */
  function Verify(sig: Script, pubKey: Script, c: Checker, parse: Bytes -> Script, given: Flags): Verdict {
    var flags := EffectiveFlags(given);
    if SigPushOnly in flags && !sig.IsPushOnly() then Rejected(SigPushOnlyRule)
    else
      match EvalTo(sig, c, flags, [])
      case Failure(e) => Rejected(e)
      case Success(copy) =>
        match EvalTrue(pubKey, c, flags, copy)
        case Failure(e) => Rejected(e)
        case Success(s) =>
          if !(P2SH in flags && pubKey.IsPayToScriptHash()) then Finish(s, flags)
          else if !sig.IsPushOnly() then Rejected(SigPushOnlyRule)
          else if copy == [] then Panicked
          else
            match EvalTrue(parse(Top(copy, 1)), c, flags, Drop(copy, 1))
            case Failure(e) => Rejected(e)
            case Success(t) => Finish(t, flags)
  }

  /** The clean-stack rule, which panics when P2SH is off. */
  function Finish(s: Stack, flags: Flags): Verdict {
    if CleanStack !in flags then Accepted(s)
    else if P2SH !in flags then Panicked
    else if |s| != 1 then Rejected(CleanStackRule)
    else Accepted(s)
  }

  method VerifyScript(sig: Script, pubKey: Script, c: Checker, parse: Bytes -> Script, given: Flags) returns (v: Verdict)
    ensures v == Verify(sig, pubKey, c, parse, given)
  {
    hide Eval;
    var flags := given;
    if SigHashForkID in flags {
      flags := flags + {StrictEnc};
    }
    if SigPushOnly in flags && !sig.IsPushOnly() {
      return Rejected(SigPushOnlyRule);
    }
    var o := EvalScript(sig, c, flags, []);
    if o.Failed? {
      return Rejected(o.error);
    }
    var copy := o.state.stack;
    o := EvalScript(pubKey, c, flags, copy);
    if o.Failed? {
      return Rejected(o.error);
    }
    var stack := o.state.stack;
    if stack == [] || !Truth(Top(stack, 1)) {
      return Rejected(EvalFalse);
    }
    if P2SH in flags && pubKey.IsPayToScriptHash() {
      if !sig.IsPushOnly() {
        return Rejected(SigPushOnlyRule);
      }
      if copy == [] {
        return Panicked;
      }
      o := EvalScript(parse(Top(copy, 1)), c, flags, Drop(copy, 1));
      if o.Failed? {
        return Rejected(o.error);
      }
      stack := o.state.stack;
      if stack == [] || !Truth(Top(stack, 1)) {
        return Rejected(EvalFalse);
      }
    }
    v := Finish(stack, flags);
  }
}
