/** Conditionals: of the parts between IF, ELSE and ENDIF exactly those run that the operand selects. */
module ScriptBranches {
  import opened Wrappers
  import opened Basics
  import opened ScriptNum
  import opened ScriptOps
  import opened ScriptFlags
  import opened Multisig
  import opened ScriptEval

  /* Runs of a part of a script */

  /** The opcodes lo .. hi - 1, one after the other. */
  function RunFrom(ops: seq<ParsedOp>, c: Checker, flags: Flags, st: State, lo: nat, hi: nat): Outcome
    requires lo <= hi <= |ops|
    decreases hi - lo
  {
    if lo == hi then Running(st)
    else
      match Step(ops, lo, c, flags, st)
      case Failed(e, n) => Failed(e, n)
      case Running(t) => RunFrom(ops, c, flags, t, lo + 1, hi)
  }

  function ThenRun(o: Outcome, ops: seq<ParsedOp>, c: Checker, flags: Flags, lo: nat, hi: nat): Outcome
    requires lo <= hi <= |ops|
  {
    match o
    case Failed(e, n) => Failed(e, n)
    case Running(t) => RunFrom(ops, c, flags, t, lo, hi)
  }

  lemma {:induction false} RunInTwo(ops: seq<ParsedOp>, c: Checker, flags: Flags, st: State, lo: nat, mid: nat, hi: nat)
    requires lo <= mid <= hi <= |ops|
    ensures RunFrom(ops, c, flags, st, lo, hi) == ThenRun(RunFrom(ops, c, flags, st, lo, mid), ops, c, flags, mid, hi)
    decreases mid - lo
  {
    hide Step;
    if lo < mid {
      var o := Step(ops, lo, c, flags, st);
      if o.Running? {
        RunInTwo(ops, c, flags, o.state, lo + 1, mid, hi);
      }
    }
  }

  /** The interpreter's loop is such a run. */
  lemma {:induction false} RunToIsRunFrom(ops: seq<ParsedOp>, c: Checker, flags: Flags, stack: Stack, i: nat)
    requires i <= |ops|
    ensures RunTo(ops, c, flags, stack, i) == RunFrom(ops, c, flags, State(stack, [], [], 0, 0, 0), 0, i)
  {
    hide Step;
    if i > 0 {
      RunToIsRunFrom(ops, c, flags, stack, i - 1);
      RunInTwo(ops, c, flags, State(stack, [], [], 0, 0, 0), 0, i - 1, i);
      var o := RunTo(ops, c, flags, stack, i - 1);
      if o.Running? {
        assert RunFrom(ops, c, flags, o.state, i - 1, i) == Step(ops, i - 1, c, flags, o.state);
      }
    }
  }

  /* Conditionals around a run */

  predicate AllTrue(e: seq<bool>) { false !in e }

  /** The state inside more conditionals. */
  function Under(e: seq<bool>, st: State): State { st.(exec := e + st.exec) }

  function UnderOutcome(e: seq<bool>, o: Outcome): Outcome {
    match o
    case Failed(_, _) => o
    case Running(st) => Running(Under(e, st))
  }

  predicate IsBranch(op: Byte) { op == OP_IF || op == OP_NOTIF }

  /** The opcode does not leave or turn the conditionals around it. */
  predicate Inside(op: Byte, depth: nat) { op == OP_ELSE || op == OP_ENDIF ==> depth > 0 }

  lemma {:induction false} ExecutingUnder(e: seq<bool>, st: State)
    requires AllTrue(e)
    ensures Executing(Under(e, st)) <==> Executing(st)
  {
    var both := e + st.exec;
    assert forall i :: 0 <= i < |st.exec| ==> st.exec[i] == both[|e| + i];
  }

  lemma {:induction false} IfUnder(e: seq<bool>, op: Byte, flags: Flags, st: State, executing: bool)
    ensures IfOp(op, flags, Under(e, st), executing) == UnderOutcome(e, IfOp(op, flags, st, executing))
  {
    hide Truth, MinimalIfOk;
    var value := executing && st.stack != [] && Truth(Top(st.stack, 1)) != (op == OP_NOTIF);
    assert e + st.exec + [value] == e + (st.exec + [value]);
  }

  lemma {:induction false} LockUnder(e: seq<bool>, op: Byte, c: Checker, flags: Flags, st: State)
    ensures LockOp(op, c, flags, Under(e, st)) == UnderOutcome(e, LockOp(op, c, flags, st))
  {
    hide Num;
  }

  lemma {:induction false} ControlUnder(e: seq<bool>, op: Byte, i: nat, c: Checker, flags: Flags, st: State, executing: bool)
    requires Inside(op, |st.exec|)
    ensures ControlOp(op, i, c, flags, Under(e, st), executing) == UnderOutcome(e, ControlOp(op, i, c, flags, st, executing))
  {
    hide IfOp, LockOp, Truth;
    IfUnder(e, op, flags, st, executing);
    LockUnder(e, op, c, flags, st);
    var all := e + st.exec;
    if st.exec != [] {
      var front, last := st.exec[..|st.exec| - 1], st.exec[|st.exec| - 1];
      assert all[..|all| - 1] == e + front;
      assert e + front + [!last] == e + (front + [!last]);
    }
  }

  lemma {:induction false} PlainUnder(e: seq<bool>, op: Byte, c: Checker, flags: Flags, st: State)
    ensures PlainOp(op, c, flags, Under(e, st)) == UnderOutcome(e, PlainOp(op, c, flags, st))
  {
    hide StackOp, SpliceOp, BitwiseOp, NumericOp, Encode;
  }

  lemma {:induction false} SignatureUnder(e: seq<bool>, op: Byte, ops: seq<ParsedOp>, c: Checker, flags: Flags, st: State)
    ensures SignatureOp(op, ops, c, flags, Under(e, st)) == UnderOutcome(e, SignatureOp(op, ops, c, flags, st))
  {
    hide PairError, CheckSig, TallyFrom, ReadMultisig, RemoveAll, RemoveOpcodeByData, DataSignatureError, PubKeyError;
  }

  /** Conditionals around an opcode that all hold make no difference to it. */
  lemma {:induction false} StepUnder(e: seq<bool>, ops: seq<ParsedOp>, i: nat, c: Checker, flags: Flags, st: State)
    requires i < |ops| && AllTrue(e) && Inside(ops[i].op, |st.exec|)
    ensures Step(ops, i, c, flags, Under(e, st)) == UnderOutcome(e, Step(ops, i, c, flags, st))
  {
    hide ControlOp, PlainOp, SignatureOp, Inside, Executing, CheckMinimalDataPush;
    var ready := BeforeOp(ops[i], st);
    assert BeforeOp(ops[i], Under(e, st)) == UnderOutcome(e, ready);
    if ready.Running? {
      ExecutingUnder(e, ready.state);
      ControlUnder(e, ops[i].op, i, c, flags, ready.state, Executing(ready.state));
      PlainUnder(e, ops[i].op, c, flags, ready.state);
      SignatureUnder(e, ops[i].op, ops, c, flags, ready.state);
    }
  }

  /** The depth after an opcode, if there is one. */
  function DepthAfter(op: Byte, depth: nat): int {
    if IsBranch(op) then depth + 1 else if op == OP_ENDIF then depth - 1 else depth
  }

  /** The opcodes lo .. hi - 1 close depth conditionals and all of their own, and leave those around them alone. */
  predicate Closes(ops: seq<ParsedOp>, lo: nat, hi: nat, depth: nat)
    requires lo <= hi <= |ops|
    decreases hi - lo
  {
    if lo == hi then depth == 0
    else Inside(ops[lo].op, depth) && Closes(ops, lo + 1, hi, DepthAfter(ops[lo].op, depth))
  }

  lemma {:induction false} StepDepth(ops: seq<ParsedOp>, i: nat, c: Checker, flags: Flags, st: State)
    requires i < |ops| && Step(ops, i, c, flags, st).Running? && Inside(ops[i].op, |st.exec|)
    ensures |Step(ops, i, c, flags, st).state.exec| == DepthAfter(ops[i].op, |st.exec|)
  {
    hide StackOp, SpliceOp, BitwiseOp, NumericOp, Encode, Num, Truth, PairError, CheckSig, TallyFrom, ReadMultisig, RemoveAll,
         RemoveOpcodeByData, DataSignatureError, PubKeyError, CheckMinimalDataPush;
  }

  lemma {:induction false} RunUnder(e: seq<bool>, ops: seq<ParsedOp>, c: Checker, flags: Flags, st: State, lo: nat, hi: nat)
    requires lo <= hi <= |ops| && AllTrue(e) && Closes(ops, lo, hi, |st.exec|)
    ensures RunFrom(ops, c, flags, Under(e, st), lo, hi) == UnderOutcome(e, RunFrom(ops, c, flags, st, lo, hi))
    ensures RunFrom(ops, c, flags, st, lo, hi).Running? ==> RunFrom(ops, c, flags, st, lo, hi).state.exec == []
    decreases hi - lo
  {
    hide Step, AllTrue, Inside, DepthAfter;
    if lo < hi {
      StepUnder(e, ops, lo, c, flags, st);
      var o := Step(ops, lo, c, flags, st);
      if o.Running? {
        StepDepth(ops, lo, c, flags, st);
        RunUnder(e, ops, c, flags, o.state, lo + 1, hi);
      }
    }
  }

  /* What is skipped */

  /** Passing over the opcodes lo .. hi - 1: they count, and some of them fail even so. */
  function SkipFrom(ops: seq<ParsedOp>, st: State, lo: nat, hi: nat): Outcome
    requires lo <= hi <= |ops|
    decreases hi - lo
  {
    if lo == hi then Running(st)
    else
      match BeforeOp(ops[lo], st)
      case Failed(e, n) => Failed(e, n)
      case Running(t) => if 0x65 <= ops[lo].op <= 0x66 then Failed(BadOpCode, t.checks) else SkipFrom(ops, t, lo + 1, hi)
  }

  /** How many of the opcodes lo .. hi - 1 count towards the limit. */
  function Counted(ops: seq<ParsedOp>, lo: nat, hi: nat): nat
    requires lo <= hi <= |ops|
    decreases hi - lo
  {
    if lo == hi then 0 else (if ops[lo].op > OP_16 then 1 else 0) + Counted(ops, lo + 1, hi)
  }

  /** Opcodes that may stand in a part that is skipped: no oversized push, nothing disabled, no VERIF or VERNOTIF. */
  predicate Harmless(e: ParsedOp) {
    |e.data| <= 520 && e.op !in {OP_INVERT, OP_2MUL, OP_2DIV, OP_MUL, OP_LSHIFT, OP_RSHIFT, 0x65, 0x66}
  }

  predicate AllHarmless(ops: seq<ParsedOp>, lo: nat, hi: nat)
    requires lo <= hi <= |ops|
  {
    forall i :: lo <= i < hi ==> Harmless(ops[i])
  }

  /** Skipping changes nothing but the opcode count, and fails exactly for a forbidden opcode or too many of them. */
  lemma {:induction false} SkippingCounts(ops: seq<ParsedOp>, st: State, lo: nat, hi: nat)
    requires lo <= hi <= |ops| && st.opCount <= 201
    ensures var n := st.opCount + Counted(ops, lo, hi);
      if AllHarmless(ops, lo, hi) && n <= 201 then SkipFrom(ops, st, lo, hi) == Running(st.(opCount := n))
      else SkipFrom(ops, st, lo, hi).Failed?
    decreases hi - lo
  {
    hide Harmless;
    if lo < hi {
      var o := BeforeOp(ops[lo], st);
      assert Harmless(ops[lo]) <==> |ops[lo].data| <= 520 && !IsOpCodeDisabled(ops[lo].op) && !(0x65 <= ops[lo].op <= 0x66) by {
        HarmlessIff(ops[lo]);
      }
      if o.Running? {
        SkippingCounts(ops, o.state, lo + 1, hi);
      }
    }
  }

  lemma {:induction false} HarmlessIff(e: ParsedOp)
    ensures Harmless(e) <==> |e.data| <= 520 && !IsOpCodeDisabled(e.op) && !(0x65 <= e.op <= 0x66)
  {
  }

  predicate Fitting(st: State) { |st.stack| + |st.alt| <= 1000 }

  lemma {:induction false} StepSkips(e: seq<bool>, ops: seq<ParsedOp>, i: nat, c: Checker, flags: Flags, st: State, inner: seq<bool>)
    requires i < |ops| && Fitting(st) && Inside(ops[i].op, |inner|) && st.exec == e + [false] + inner
    ensures var o := Step(ops, i, c, flags, st);
      match BeforeOp(ops[i], st)
      case Failed(x, n) => o == Failed(x, n)
      case Running(t) =>
        if 0x65 <= ops[i].op <= 0x66 then o == Failed(BadOpCode, t.checks)
        else o.Running? && exists r :: o.state == t.(exec := e + [false] + r) && |r| == DepthAfter(ops[i].op, |inner|)
  {
    hide PlainOp, CheckSigOp, CheckDataSigOp, MultisigOp, LockOp;
    var ready := BeforeOp(ops[i], st);
    if ready.Running? {
      var t, all := ready.state, st.exec;
      assert all[|e|] == false;
      assert !Executing(t);
      var op := ops[i].op;
      var r := if IsBranch(op) then inner + [false] else if op == OP_ENDIF then inner[..|inner| - 1]
               else if op == OP_ELSE then inner[..|inner| - 1] + [!inner[|inner| - 1]] else inner;
      assert IsBranch(op) ==> all + [false] == e + [false] + r;
      if inner != [] {
        assert all[|all| - 1] == inner[|inner| - 1];
        assert all[..|all| - 1] == e + [false] + inner[..|inner| - 1];
        assert all[..|all| - 1] + [!all[|all| - 1]] == e + [false] + (inner[..|inner| - 1] + [!inner[|inner| - 1]]);
      }
      var o := Step(ops, i, c, flags, st);
      assert !(0x65 <= op <= 0x66) ==> o == Running(t.(exec := e + [false] + r)) && |r| == DepthAfter(op, |inner|);
    }
  }

  function WithExec(o: Outcome, e: seq<bool>): Outcome {
    match o
    case Failed(_, _) => o
    case Running(st) => Running(st.(exec := e))
  }

  lemma {:induction false} SkipKeepsExec(ops: seq<ParsedOp>, st: State, e: seq<bool>, lo: nat, hi: nat)
    requires lo <= hi <= |ops|
    ensures SkipFrom(ops, st.(exec := e), lo, hi) == WithExec(SkipFrom(ops, st, lo, hi), e)
    ensures SkipFrom(ops, st, lo, hi).Running? ==>
      var t := SkipFrom(ops, st, lo, hi).state; t == st.(opCount := t.opCount)
    decreases hi - lo
  {
    if lo < hi {
      var o := BeforeOp(ops[lo], st);
      if o.Running? {
        SkipKeepsExec(ops, o.state, e, lo + 1, hi);
      }
    }
  }

  /** A part whose condition does not hold is passed over. */
  lemma {:induction false} RunSkips(e: seq<bool>, ops: seq<ParsedOp>, c: Checker, flags: Flags, st: State, inner: seq<bool>,
      lo: nat, hi: nat)
    requires lo <= hi <= |ops| && Fitting(st) && Closes(ops, lo, hi, |inner|) && st.exec == e + [false] + inner
    ensures RunFrom(ops, c, flags, st, lo, hi) == WithExec(SkipFrom(ops, st, lo, hi), e + [false])
    decreases hi - lo
  {
    hide Step, Inside, DepthAfter;
    if lo == hi {
      assert inner == [];
    } else {
      StepSkips(e, ops, lo, c, flags, st, inner);
      var ready, o := BeforeOp(ops[lo], st), Step(ops, lo, c, flags, st);
      if ready.Running? && !(0x65 <= ops[lo].op <= 0x66) {
        var r :| o.state == ready.state.(exec := e + [false] + r) && |r| == DepthAfter(ops[lo].op, |inner|);
        RunSkips(e, ops, c, flags, o.state, r, lo + 1, hi);
        SkipKeepsExec(ops, ready.state, o.state.exec, lo + 1, hi);
      }
    }
  }

  /* The whole conditional */

  /** A part of a conditional: run as if it stood alone if on, passed over otherwise. */
  function Part(ops: seq<ParsedOp>, c: Checker, flags: Flags, st: State, lo: nat, hi: nat, on: bool): Outcome
    requires lo <= hi <= |ops|
  {
    if on then RunFrom(ops, c, flags, st, lo, hi) else SkipFrom(ops, st, lo, hi)
  }

  lemma {:induction false} StepFits(ops: seq<ParsedOp>, i: nat, c: Checker, flags: Flags, st: State)
    requires i < |ops| && Step(ops, i, c, flags, st).Running?
    ensures Fitting(Step(ops, i, c, flags, st).state)
  {
    hide Execute;
  }

  lemma {:induction false} RunFits(ops: seq<ParsedOp>, c: Checker, flags: Flags, st: State, lo: nat, hi: nat)
    requires lo <= hi <= |ops| && Fitting(st) && RunFrom(ops, c, flags, st, lo, hi).Running?
    ensures Fitting(RunFrom(ops, c, flags, st, lo, hi).state)
    decreases hi - lo
  {
    hide Step;
    if lo < hi {
      StepFits(ops, lo, c, flags, st);
      RunFits(ops, c, flags, Step(ops, lo, c, flags, st).state, lo + 1, hi);
    }
  }

  /** Inside one more conditional, a part does what it does outside, or nothing. */
  lemma {:induction false} PartRuns(ops: seq<ParsedOp>, c: Checker, flags: Flags, st: State, lo: nat, hi: nat, on: bool)
    requires lo <= hi <= |ops| && Fitting(st) && AllTrue(st.exec) && Closes(ops, lo, hi, 0)
    ensures RunFrom(ops, c, flags, st.(exec := st.exec + [on]), lo, hi) ==
      WithExec(Part(ops, c, flags, st, lo, hi, on), st.exec + [on])
    ensures var o := Part(ops, c, flags, st, lo, hi, on); o.Running? ==> o.state.exec == st.exec && Fitting(o.state)
  {
    hide RunFrom, SkipFrom, Closes;
    var e, bare := st.exec, st.(exec := []);
    if on {
      assert e + [] == e && e + [true] + [] == e + [true];
      RunUnder(e, ops, c, flags, bare, lo, hi);
      RunUnder(e + [true], ops, c, flags, bare, lo, hi);
      assert Under(e, bare) == st && Under(e + [true], bare) == st.(exec := e + [true]);
      if RunFrom(ops, c, flags, st, lo, hi).Running? {
        RunFits(ops, c, flags, st, lo, hi);
      }
    } else {
      assert e + [false] + [] == e + [false];
      RunSkips(e, ops, c, flags, st.(exec := e + [false]), [], lo, hi);
      SkipKeepsExec(ops, st, e + [false], lo, hi);
    }
  }

  /** ELSE turns the innermost condition and ENDIF ends it. */
  lemma {:induction false} MarkerRuns(ops: seq<ParsedOp>, i: nat, c: Checker, flags: Flags, st: State, on: bool)
    requires i < |ops| && Fitting(st) && (ops[i].op == OP_ELSE || ops[i].op == OP_ENDIF)
    ensures Step(ops, i, c, flags, st.(exec := st.exec + [on])) ==
      WithExec(BeforeOp(ops[i], st), if ops[i].op == OP_ELSE then st.exec + [!on] else st.exec)
  {
    hide PlainOp, SignatureOp, LockOp, IfOp, Executing;
    var all := st.exec + [on];
    assert all[..|all| - 1] == st.exec;
  }

  /** The positions of an IF or NOTIF, of its ELSEs in order (any number of them) and of its ENDIF. */
  ghost predicate IsConditional(ops: seq<ParsedOp>, marks: seq<nat>) {
    |marks| >= 2 && (forall k :: 0 <= k < |marks| ==> marks[k] < |ops|) && IsBranch(ops[marks[0]].op) &&
    (forall k :: 1 <= k < |marks| ==> marks[k - 1] < marks[k]) &&
    (forall k :: 1 <= k < |marks| ==> Closes(ops, marks[k - 1] + 1, marks[k], 0)) &&
    (forall k :: 1 <= k < |marks| ==> ops[marks[k]].op == if k + 1 < |marks| then OP_ELSE else OP_ENDIF)
  }

  /** The parts after mark k in turn, every other one; each mark counts as an opcode. */
  ghost function Parts(ops: seq<ParsedOp>, c: Checker, flags: Flags, st: State, marks: seq<nat>, k: nat, on: bool): Outcome
    requires IsConditional(ops, marks) && k + 1 < |marks|
    decreases |marks| - k
  {
    match Part(ops, c, flags, st, marks[k + 1 - 1] + 1, marks[k + 1], on)
    case Failed(e, n) => Failed(e, n)
    case Running(t) =>
      match BeforeOp(ops[marks[k + 1]], t)
      case Failed(e, n) => Failed(e, n)
      case Running(u) => if k + 2 == |marks| then Running(u) else Parts(ops, c, flags, u, marks, k + 1, !on)
  }

  lemma {:induction false} MarkInRange(ops: seq<ParsedOp>, marks: seq<nat>, k: nat)
    requires IsConditional(ops, marks) && 1 <= k < |marks|
    ensures marks[k - 1] < marks[k] <= marks[|marks| - 1] < |ops|
    decreases |marks| - k
  {
    hide Closes;
    if k + 1 < |marks| {
      MarkInRange(ops, marks, k + 1);
    }
  }

  lemma {:induction false} PartsRun(ops: seq<ParsedOp>, c: Checker, flags: Flags, st: State, marks: seq<nat>, k: nat, on: bool)
    requires IsConditional(ops, marks) && k + 1 < |marks| && Fitting(st) && AllTrue(st.exec)
    requires marks[k] < marks[|marks| - 1] < |ops|
    ensures RunFrom(ops, c, flags, st.(exec := st.exec + [on]), marks[k] + 1, marks[|marks| - 1] + 1) ==
      Parts(ops, c, flags, st, marks, k, on)
    decreases |marks| - k
  {
    hide Step, Part, Closes, BeforeOp, Fitting;
    var lo, mid, hi := marks[k] + 1, marks[k + 1], marks[|marks| - 1] + 1;
    MarkInRange(ops, marks, k + 1);
    assert k + 1 - 1 == k;
    assert Closes(ops, marks[k + 1 - 1] + 1, marks[k + 1], 0);
    var inner := st.(exec := st.exec + [on]);
    RunInTwo(ops, c, flags, inner, lo, mid, hi);
    PartRuns(ops, c, flags, st, lo, mid, on);
    var o := Part(ops, c, flags, st, lo, mid, on);
    if o.Running? {
      var t := o.state;
      MarkerRuns(ops, mid, c, flags, t, on);
      var r := BeforeOp(ops[mid], t);
      if r.Running? {
        assert r.state == t.(opCount := r.state.opCount) by { BeforeCounts(ops[mid], t); }
        FitsToo(r.state, t);
        assert ops[mid].op == if k + 2 < |marks| then OP_ELSE else OP_ENDIF;
        var next := Step(ops, mid, c, flags, t.(exec := t.exec + [on])).state;
        assert RunFrom(ops, c, flags, t.(exec := t.exec + [on]), mid, hi) == RunFrom(ops, c, flags, next, mid + 1, hi);
        if k + 2 < |marks| {
          PartsRun(ops, c, flags, r.state, marks, k + 1, !on);
        }
      }
    }
  }

  lemma {:induction false} BeforeCounts(e: ParsedOp, st: State)
    requires BeforeOp(e, st).Running?
    ensures var t := BeforeOp(e, st).state; t == st.(opCount := t.opCount)
  {
  }

  lemma {:induction false} FitsToo(a: State, b: State)
    requires a.stack == b.stack && a.alt == b.alt && Fitting(b)
    ensures Fitting(a)
  {
  }

  /** What a conditional does: the operand is taken away, and its truth says which parts run. */
  ghost function Conditional(ops: seq<ParsedOp>, c: Checker, flags: Flags, st: State, marks: seq<nat>): Outcome
    requires IsConditional(ops, marks)
  {
    var e := ops[marks[0]];
    match BeforeOp(e, st)
    case Failed(x, n) => Failed(x, n)
    case Running(t) =>
      if t.stack == [] then Failed(UnbalancedConditional, t.checks)
      else
        var x := Top(t.stack, 1);
        if MinimalIf in flags && x != [] && x != [1] then Failed(MinimalIfArgument, t.checks)
        else Parts(ops, c, flags, t.(stack := Drop(t.stack, 1)), marks, 0, (Value(x) != 0) == (e.op == OP_IF))
  }

  lemma {:induction false} BranchStep(ops: seq<ParsedOp>, i: nat, c: Checker, flags: Flags, st: State)
    requires i < |ops| && IsBranch(ops[i].op) && Fitting(st) && Executing(st)
    ensures Step(ops, i, c, flags, st) ==
      match BeforeOp(ops[i], st)
      case Failed(x, n) => Failed(x, n)
      case Running(t) =>
        if t.stack == [] then Failed(UnbalancedConditional, t.checks)
        else
          var x := Top(t.stack, 1);
          if MinimalIf in flags && x != [] && x != [1] then Failed(MinimalIfArgument, t.checks)
          else Running(t.(stack := Drop(t.stack, 1), exec := t.exec + [(Value(x) != 0) == (ops[i].op == OP_IF)]))
  {
    hide PlainOp, SignatureOp, LockOp, Truth, Value;
    if st.stack != [] {
      TruthIsNonZero(Top(st.stack, 1));
    }
  }

  /** A conditional runs exactly the parts that its operand selects. */
  lemma {:induction false} ConditionalRuns(ops: seq<ParsedOp>, c: Checker, flags: Flags, st: State, marks: seq<nat>)
    requires IsConditional(ops, marks) && Executing(st) && Fitting(st) && marks[0] <= marks[|marks| - 1] < |ops|
    ensures RunFrom(ops, c, flags, st, marks[0], marks[|marks| - 1] + 1) == Conditional(ops, c, flags, st, marks)
  {
    hide Step, BeforeOp, Parts, Closes, Value, Executing, AllTrue;
    var i := marks[0];
    BranchStep(ops, i, c, flags, st);
    var o, ready := Step(ops, i, c, flags, st), BeforeOp(ops[i], st);
    if o.Running? {
      BeforeCounts(ops[i], st);
      var t := ready.state.(stack := Drop(st.stack, 1));
      var on := (Value(Top(st.stack, 1)) != 0) == (ops[i].op == OP_IF);
      assert AllTrue(t.exec) by { assert t.exec == st.exec; SameCondition(st); }
      assert t.(exec := t.exec + [on]) == o.state;
      MarkInRange(ops, marks, 1);
      PartsRun(ops, c, flags, t, marks, 0, on);
    }
  }

  lemma {:induction false} SameCondition(st: State)
    ensures Executing(st) <==> AllTrue(st.exec)
  {
  }

  lemma {:induction false} StepInside(ops: seq<ParsedOp>, i: nat, c: Checker, flags: Flags, st: State)
    requires i < |ops| && Step(ops, i, c, flags, st).Running?
    ensures Inside(ops[i].op, |st.exec|)
  {
    hide PlainOp, SignatureOp, LockOp, IfOp, Executing;
  }

  lemma {:induction false} RunCloses(ops: seq<ParsedOp>, c: Checker, flags: Flags, st: State, lo: nat, hi: nat)
    requires lo <= hi <= |ops| && RunFrom(ops, c, flags, st, lo, hi).Running?
    requires RunFrom(ops, c, flags, st, lo, hi).state.exec == []
    ensures Closes(ops, lo, hi, |st.exec|)
    decreases hi - lo
  {
    hide Step, Inside, DepthAfter;
    if lo < hi {
      StepInside(ops, lo, c, flags, st);
      StepDepth(ops, lo, c, flags, st);
      RunCloses(ops, c, flags, Step(ops, lo, c, flags, st).state, lo + 1, hi);
    }
  }

  /** A script runs to its end only if its conditionals are properly nested and closed, whichever parts run. */
  lemma {:induction false} EvaluatedIsNested(s: Script, c: Checker, flags: Flags, stack: Stack)
    requires Eval(s, c, flags, stack).Running?
    ensures Closes(s.ops, 0, |s.ops|, 0)
  {
    hide RunTo, RunFrom, Closes;
    RunToIsRunFrom(s.ops, c, flags, stack, |s.ops|);
    RunCloses(s.ops, c, flags, State(stack, [], [], 0, 0, 0), 0, |s.ops|);
  }
}
