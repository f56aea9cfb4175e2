/** Clearing verification flags never rejects a script that was accepted: the fallback run of checkScript. */
module ScriptRelax {
  import opened Wrappers
  import opened Basics
  import opened ScriptNum
  import opened ScriptOps
  import opened ScriptFlags
  import opened Multisig
  import opened ScriptEval

  /**
   g only drops rules of f: what enables opcodes or changes signature hashes is the same in both, and while
   upgradable NOPs are discouraged the two that became lock checks stay lock checks.
   */
  predicate Relaxes(f: Flags, g: Flags) {
    g <= f &&
    (SigHashForkID in f ==> SigHashForkID in g) && (ReplayProtection in f ==> ReplayProtection in g) &&
    (CheckDataSig in f ==> CheckDataSig in g) && (P2SH in f ==> P2SH in g) &&
    (DiscourageUpgradableNops in g ==>
       (CheckLockTimeVerify in f ==> CheckLockTimeVerify in g) && (CheckSequenceVerify in f ==> CheckSequenceVerify in g))
  }

  lemma {:induction false} EffectiveRelaxes(f: Flags, g: Flags)
    requires Relaxes(f, g)
    ensures Relaxes(EffectiveFlags(f), EffectiveFlags(g))
  {
  }

  /* Opcode by opcode */

  lemma {:induction false} PairErrorRelaxed(c: Checker, sig: Bytes, key: Bytes, f: Flags, g: Flags)
    requires Relaxes(f, g) && PairError(c, sig, key, f).None?
    ensures PairError(c, sig, key, g).None?
  {
  }

  lemma {:induction false} CheckSigRelaxed(c: Checker, sig: Bytes, key: Bytes, code: seq<ParsedOp>, f: Flags, g: Flags)
    requires Relaxes(f, g)
    ensures CheckSig(c, sig, key, code, g) == CheckSig(c, sig, key, code, f)
  {
  }

  lemma {:induction false} TallyRelaxed(c: Checker, f: Flags, g: Flags, code: seq<ParsedOp>, keys: seq<Bytes>,
      sigs: seq<Bytes>, k: nat, s: nat)
    requires Relaxes(f, g) && k <= |keys| && s <= |sigs| && |sigs| - s <= |keys| - k
    requires TallyFrom(c, f, code, keys, sigs, k, s).Counted?
    ensures TallyFrom(c, g, code, keys, sigs, k, s) == TallyFrom(c, f, code, keys, sigs, k, s)
    decreases |keys| - k
  {
    hide PairError, CheckSig, Relaxes;
    if s < |sigs| {
      PairErrorRelaxed(c, sigs[s], keys[k], f, g);
      CheckSigRelaxed(c, sigs[s], keys[k], code, f, g);
      var left := if CheckSig(c, sigs[s], keys[k], code, f).value then s + 1 else s;
      if |sigs| - left <= |keys| - (k + 1) {
        TallyRelaxed(c, f, g, code, keys, sigs, k + 1, left);
      }
    }
  }

  lemma {:induction false} CheckSigOpRelaxed(op: Byte, ops: seq<ParsedOp>, c: Checker, f: Flags, g: Flags, st: State)
    requires Relaxes(f, g) && CheckSigOp(op, ops, c, f, st).Running?
    ensures CheckSigOp(op, ops, c, g, st) == CheckSigOp(op, ops, c, f, st)
  {
    hide PairError, CheckSig, RemoveOpcodeByData, CodeFrom;
    var sig, key := Top(st.stack, 2), Top(st.stack, 1);
    PairErrorRelaxed(c, sig, key, f, g);
    CheckSigRelaxed(c, sig, key, RemoveOpcodeByData(CodeFrom(ops, st.begin), sig), f, g);
  }

  lemma {:induction false} CheckDataSigOpRelaxed(op: Byte, c: Checker, f: Flags, g: Flags, st: State)
    requires Relaxes(f, g) && CheckDataSigOp(op, c, f, st).Running?
    ensures CheckDataSigOp(op, c, g, st) == CheckDataSigOp(op, c, f, st)
  {
  }

  lemma {:induction false} ReadMultisigRelaxed(s: Stack, opCount: nat)
    requires ReadMultisig(s, true, opCount).Success?
    ensures ReadMultisig(s, false, opCount) == ReadMultisig(s, true, opCount)
  {
    hide IsMinimallyEncoded, Value;
    var n := Num(Top(s, 1), true, DEFAULT_MAX_NUM_SIZE).value;
    NumRelaxed(Top(s, 1), DEFAULT_MAX_NUM_SIZE);
    NumRelaxed(Top(s, n + 2), DEFAULT_MAX_NUM_SIZE);
  }

  lemma {:induction false} FinishMultisigRelaxed(op: Byte, a: MultisigArgs, t: Tally, f: Flags, g: Flags, st: State)
    requires g <= f && FinishMultisig(op, a, t, f, st).Running?
    ensures FinishMultisig(op, a, t, g, st) == FinishMultisig(op, a, t, f, st)
  {
  }

  lemma {:induction false} MultisigOpRelaxed(op: Byte, ops: seq<ParsedOp>, c: Checker, f: Flags, g: Flags, st: State)
    requires Relaxes(f, g) && MultisigOp(op, ops, c, f, st).Running?
    ensures MultisigOp(op, ops, c, g, st) == MultisigOp(op, ops, c, f, st)
  {
    var args := ReadMultisig(st.stack, MinimalData in f, st.opCount);
    assert args.Success?;
    var a := args.value;
    var code := RemoveAll(CodeFrom(ops, st.begin), a.sigs);
    var t := TallyFrom(c, f, code, a.keys, a.sigs, 0, 0);
    assert t.Counted?;
    hide ReadMultisig, TallyFrom, RemoveAll, CodeFrom, FinishMultisig;
    if MinimalData in f && MinimalData !in g {
      ReadMultisigRelaxed(st.stack, st.opCount);
    }
    TallyRelaxed(c, f, g, code, a.keys, a.sigs, 0, 0);
    FinishMultisigRelaxed(op, a, t, f, g, st);
  }

  lemma {:induction false} SignatureOpRelaxed(op: Byte, ops: seq<ParsedOp>, c: Checker, f: Flags, g: Flags, st: State)
    requires Relaxes(f, g) && SignatureOp(op, ops, c, f, st).Running?
    ensures SignatureOp(op, ops, c, g, st) == SignatureOp(op, ops, c, f, st)
  {
    hide CheckSigOp, CheckDataSigOp, MultisigOp, Relaxes;
    if op == OP_CHECKSIG || op == OP_CHECKSIGVERIFY {
      CheckSigOpRelaxed(op, ops, c, f, g, st);
    } else if op == OP_CHECKDATASIG || op == OP_CHECKDATASIGVERIFY {
      CheckDataSigOpRelaxed(op, c, f, g, st);
    } else {
      MultisigOpRelaxed(op, ops, c, f, g, st);
    }
  }

  lemma {:induction false} PlainOpRelaxed(op: Byte, c: Checker, f: Flags, g: Flags, st: State)
    requires g <= f && PlainOp(op, c, f, st).Running?
    ensures PlainOp(op, c, g, st) == PlainOp(op, c, f, st)
  {
    hide StackOp, SpliceOp, BitwiseOp, NumericOp, Encode;
    if MinimalData in f && MinimalData !in g {
      StackOpRelaxed(op, st.stack, st.alt);
      SpliceOpRelaxed(op, st.stack);
      NumericOpRelaxed(op, st.stack);
    }
  }

  lemma {:induction false} LockOpRelaxed(op: Byte, c: Checker, f: Flags, g: Flags, st: State)
    requires Relaxes(f, g) && (op == OP_CHECKLOCKTIMEVERIFY || op == OP_CHECKSEQUENCEVERIFY) && LockOp(op, c, f, st).Running?
    ensures LockOp(op, c, g, st) == LockOp(op, c, f, st)
  {
    hide IsMinimallyEncoded, Value;
    if |st.stack| > 0 {
      NumRelaxed(Top(st.stack, 1), 5);
    }
  }

  lemma {:induction false} ControlOpRelaxed(op: Byte, i: nat, c: Checker, f: Flags, g: Flags, st: State,
      executing: bool)
    requires Relaxes(f, g) && ControlOp(op, i, c, f, st, executing).Running?
    ensures ControlOp(op, i, c, g, st, executing) == ControlOp(op, i, c, f, st, executing)
  {
    hide LockOp, Truth;
    if op == OP_CHECKLOCKTIMEVERIFY || op == OP_CHECKSEQUENCEVERIFY {
      LockOpRelaxed(op, c, f, g, st);
    }
  }

  lemma {:induction false} DispatchRelaxed(ops: seq<ParsedOp>, i: nat, c: Checker, f: Flags, g: Flags, st: State,
      executing: bool)
    requires i < |ops| && Relaxes(f, g) && Dispatch(ops, i, c, f, st, executing).Running?
    ensures Dispatch(ops, i, c, g, st, executing) == Dispatch(ops, i, c, f, st, executing)
  {
    hide ControlOp, PlainOp, SignatureOp, IsControl, IsPlain;
    var op := ops[i].op;
    if IsControl(op) {
      ControlOpRelaxed(op, i, c, f, g, st, executing);
    } else if IsPlain(op) {
      PlainOpRelaxed(op, c, f, g, st);
    } else {
      SignatureOpRelaxed(op, ops, c, f, g, st);
    }
  }

  lemma {:induction false} StepRelaxed(ops: seq<ParsedOp>, i: nat, c: Checker, f: Flags, g: Flags, st: State)
    requires i < |ops| && Relaxes(f, g) && Step(ops, i, c, f, st).Running?
    ensures Step(ops, i, c, g, st) == Step(ops, i, c, f, st)
  {
    var ready := BeforeOp(ops[i], st).state;
    hide Dispatch, BeforeOp, CheckMinimalDataPush;
    if (Executing(ready) && ops[i].op > OP_PUSHDATA4) || (!Executing(ready) && OP_IF <= ops[i].op <= OP_ENDIF) {
      DispatchRelaxed(ops, i, c, f, g, ready, Executing(ready));
    }
  }

  /* Whole scripts */

  /** The same states, opcode by opcode. */
  lemma {:induction false} RunRelaxed(ops: seq<ParsedOp>, c: Checker, f: Flags, g: Flags, stack: Stack, i: nat)
    requires i <= |ops| && Relaxes(f, g) && RunTo(ops, c, f, stack, i).Running?
    ensures RunTo(ops, c, g, stack, i) == RunTo(ops, c, f, stack, i)
  {
    hide Step, Relaxes;
    if i > 0 {
      RunRelaxed(ops, c, f, g, stack, i - 1);
      StepRelaxed(ops, i - 1, c, f, g, RunTo(ops, c, f, stack, i - 1).state);
    }
  }

  lemma {:induction false} EvalToRelaxed(s: Script, c: Checker, f: Flags, g: Flags, stack: Stack)
    requires Relaxes(f, g) && EvalTo(s, c, f, stack).Success?
    ensures EvalTo(s, c, g, stack) == EvalTo(s, c, f, stack)
  {
    hide RunTo, Relaxes;
    RunRelaxed(s.ops, c, f, g, stack, |s.ops|);
  }

  lemma {:induction false} EvalTrueRelaxed(s: Script, c: Checker, f: Flags, g: Flags, stack: Stack)
    requires Relaxes(f, g) && EvalTrue(s, c, f, stack).Success?
    ensures EvalTrue(s, c, g, stack) == EvalTrue(s, c, f, stack)
  {
    hide EvalTo, Relaxes, Truth;
    EvalToRelaxed(s, c, f, g, stack);
  }

  /** A script accepted under f is accepted, with the same final stack, under every relaxation of f. */
  lemma {:induction false} VerifyRelaxed(sig: Script, pubKey: Script, c: Checker, parse: Bytes -> Script, f: Flags,
      g: Flags)
    requires Relaxes(f, g) && Verify(sig, pubKey, c, parse, f).Accepted?
    ensures Verify(sig, pubKey, c, parse, g) == Verify(sig, pubKey, c, parse, f)
  {
    hide EvalTo, EvalTrue, EffectiveFlags;
    EffectiveRelaxes(f, g);
    var e, h := EffectiveFlags(f), EffectiveFlags(g);
    EvalToRelaxed(sig, c, e, h, []);
    var copy := EvalTo(sig, c, e, []).value;
    EvalTrueRelaxed(pubKey, c, e, h, copy);
    if P2SH in e && pubKey.IsPayToScriptHash() {
      EvalTrueRelaxed(parse(Top(copy, 1)), c, e, h, Drop(copy, 1));
    }
  }

  /* The fallback */

  function FallbackFlags(flags: Flags): Flags { flags - STANDARD_NOT_MANDATORY }

  /** The fallback run accepts everything the full run accepts. */
  lemma {:induction false} FallbackAcceptsMore(sig: Script, pubKey: Script, c: Checker, parse: Bytes -> Script,
      flags: Flags)
    requires Verify(sig, pubKey, c, parse, flags).Accepted?
    ensures Verify(sig, pubKey, c, parse, FallbackFlags(flags)) == Verify(sig, pubKey, c, parse, flags)
  {
    hide Verify;
    assert Relaxes(flags, FallbackFlags(flags));
    VerifyRelaxed(sig, pubKey, c, parse, flags, FallbackFlags(flags));
  }

  datatype JobResult = Passed | NonMandatoryFailure(error: ScriptError) | MandatoryFailure(error: ScriptError) | JobPanic

  /** checkScript: a failure only counts as mandatory when the mandatory rules alone reject as well. */
  method CheckScript(sig: Script, pubKey: Script, c: Checker, parse: Bytes -> Script, flags: Flags) returns (r: JobResult)
    ensures r == Passed <==> Verify(sig, pubKey, c, parse, flags).Accepted?
    ensures r.Passed? || r.NonMandatoryFailure? ==> Verify(sig, pubKey, c, parse, FallbackFlags(flags)).Accepted?
    ensures r.MandatoryFailure? ==> Verify(sig, pubKey, c, parse, FallbackFlags(flags)).Rejected?
    ensures r.MandatoryFailure? || r.NonMandatoryFailure? ==> Verify(sig, pubKey, c, parse, flags) == Rejected(r.error)
    ensures r.JobPanic? <==> Verify(sig, pubKey, c, parse, flags).Panicked? ||
                             (Verify(sig, pubKey, c, parse, flags).Rejected? &&
                              Verify(sig, pubKey, c, parse, FallbackFlags(flags)).Panicked?)
  {
    hide Verify;
    var full := VerifyScript(sig, pubKey, c, parse, flags);
    if full.Panicked? {
      return JobPanic;
    }
    if full.Rejected? {
      if flags * STANDARD_NOT_MANDATORY != {} {
        var fallback := VerifyScript(sig, pubKey, c, parse, FallbackFlags(flags));
        if fallback.Panicked? {
          return JobPanic;
        }
        if fallback.Accepted? {
          return NonMandatoryFailure(full.error);
        }
      } else {
        assert FallbackFlags(flags) == flags;
      }
      return MandatoryFailure(full.error);
    }
    FallbackAcceptsMore(sig, pubKey, c, parse, flags);
    r := Passed;
  }

  /* Why the two lock checks may not go alone */

  const ONE: Script := Script([OP_1], [ParsedOp(OP_1, [])], false)
  const LOCK: Script := Script([OP_CHECKLOCKTIMEVERIFY], [ParsedOp(OP_CHECKLOCKTIMEVERIFY, [])], false)

  lemma {:induction false} EvalOne(c: Checker, flags: Flags)
    ensures EvalTo(ONE, c, flags, []) == Success([Encode(1)])
  {
    var start := State([], [], [], 0, 0, 0);
    assert RunTo(ONE.ops, c, flags, [], 0) == Running(start);
    assert Execute(ONE.ops, 0, c, flags, start) == PlainOp(OP_1, c, flags, start);
    assert RunTo(ONE.ops, c, flags, [], 1) == Step(ONE.ops, 0, c, flags, start);
    assert [] + [Encode(1)] == [Encode(1)];
  }

  lemma {:induction false} EvalLock(c: Checker, flags: Flags, stack: Stack)
    requires |stack| <= 1000
    ensures EvalTo(LOCK, c, flags, stack) ==
            match LockOp(OP_CHECKLOCKTIMEVERIFY, c, flags, State(stack, [], [], 1, 0, 0))
            case Failed(e, _) => Failure(e)
            case Running(st) => Success(stack)
  {
    var start := State(stack, [], [], 0, 0, 0);
    assert RunTo(LOCK.ops, c, flags, stack, 0) == Running(start);
    assert RunTo(LOCK.ops, c, flags, stack, 1) == Step(LOCK.ops, 0, c, flags, start);
  }

  lemma {:induction false} OneIsOne()
    ensures Num(Encode(1), false, 5) == Some(1) && Truth(Encode(1))
  {
    EncodeRoundTrip(1);
    TruthIsNonZero(Encode(1));
    assert Digits(1) == [1] + Digits(0);
  }

  lemma {:induction false} LockOpOnOne(c: Checker)
    requires c.lockTimeOk(1)
    ensures var st := State([Encode(1)], [], [], 1, 0, 0);
            LockOp(OP_CHECKLOCKTIMEVERIFY, c, {CheckLockTimeVerify, DiscourageUpgradableNops}, st) == Running(st) &&
            LockOp(OP_CHECKLOCKTIMEVERIFY, c, {DiscourageUpgradableNops}, st) == Failed(DiscouragedNop, 0)
  {
    OneIsOne();
    hide Encode, Num;
  }

  /** Dropping CHECKLOCKTIMEVERIFY but still discouraging NOPs rejects a script that was accepted. */
  lemma {:induction false} DroppedLockIsDiscouraged(c: Checker, parse: Bytes -> Script)
    requires c.lockTimeOk(1)
    ensures Verify(ONE, LOCK, c, parse, {CheckLockTimeVerify, DiscourageUpgradableNops}).Accepted?
    ensures Verify(ONE, LOCK, c, parse, {DiscourageUpgradableNops}) == Rejected(DiscouragedNop)
  {
    OneIsOne();
    LockOpOnOne(c);
    hide EvalTo, Truth, Encode, LockOp, Num;
    var f: Flags, g: Flags := {CheckLockTimeVerify, DiscourageUpgradableNops}, {DiscourageUpgradableNops};
    EvalOne(c, f);
    EvalOne(c, g);
    EvalLock(c, f, [Encode(1)]);
    EvalLock(c, g, [Encode(1)]);
  }
}
