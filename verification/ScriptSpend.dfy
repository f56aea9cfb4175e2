/** When an output may be spent: what acceptance by VerifyScript means, for any scripts and for the standard outputs. */
module ScriptSpend {
  import opened Wrappers
  import opened Basics
  import opened ScriptNum
  import opened ScriptOps
  import opened ScriptFlags
  import opened Multisig
  import opened ScriptEval
  import opened ScriptMeaning
  import opened ScriptSignatures

  /* Any scripts */

  /** With fork-id signatures, strict encoding is always in force. */
  function InForce(given: Flags): Flags {
    given + if SigHashForkID in given then {StrictEnc} else {}
  }

  predicate EndsTrue(s: Stack) {
    s != [] && Value(s[|s| - 1]) != 0
  }

  predicate EndsClean(s: Stack, flags: Flags) {
    CleanStack in flags ==> |s| == 1
  }

  /** Run on from, the script ends with to, a true value on top and, if asked for, nothing below it. */
  predicate Spends(s: Script, c: Checker, flags: Flags, from: Stack, to: Stack) {
    EvalTo(s, c, flags, from) == Success(to) && EndsTrue(to) && EndsClean(to, flags)
  }

  /** The signature script is only pushes where it has to be, and runs to its end. */
  predicate Unlocks(sig: Script, c: Checker, flags: Flags) {
    (SigPushOnly in flags ==> sig.IsPushOnly()) && EvalTo(sig, c, flags, []).Success?
  }

  predicate PaysScript(pubKey: Script, given: Flags) {
    P2SH in given && pubKey.IsPayToScriptHash()
  }

  lemma {:induction false} TrueIff(s: Script, c: Checker, flags: Flags, from: Stack)
    ensures var r := EvalTrue(s, c, flags, from);
      forall to :: r == Success(to) <==> EvalTo(s, c, flags, from) == Success(to) && EndsTrue(to)
  {
    hide EvalTo, Truth, Value;
    var r := EvalTo(s, c, flags, from);
    if r.Success? && r.value != [] {
      TruthIsNonZero(Top(r.value, 1));
    }
  }

  /** What is accepted ends with a true value, alone if the clean-stack rule is on. */
  lemma {:induction false} AcceptedMeansTrue(sig: Script, pubKey: Script, c: Checker, parse: Bytes -> Script, given: Flags)
    ensures forall s :: Verify(sig, pubKey, c, parse, given) == Accepted(s) ==>
      s != [] && Truth(Top(s, 1)) && (CleanStack in given ==> |s| == 1)
  {
    hide EvalTo, Truth, Script.IsPushOnly;
  }

  /** An output that does not pay to a script hash: the signature script and then the output script. */
  lemma {:induction false} AcceptedIff(sig: Script, pubKey: Script, c: Checker, parse: Bytes -> Script, given: Flags, s: Stack)
    requires !PaysScript(pubKey, given) && (CleanStack in given ==> P2SH in given)
    ensures var flags := InForce(given);
      Verify(sig, pubKey, c, parse, given) == Accepted(s) <==>
      Unlocks(sig, c, flags) && Spends(pubKey, c, flags, EvalTo(sig, c, flags, []).value, s)
  {
    hide EvalTo, EvalTrue, EndsTrue, Script.IsPushOnly;
    var flags := InForce(given);
    assert EffectiveFlags(given) == flags;
    var r := EvalTo(sig, c, flags, []);
    if r.Success? {
      TrueIff(pubKey, c, flags, r.value);
    }
  }

  /** An output that pays to a script hash: its script, and then the redeem script that was pushed last. */
  lemma {:induction false} AcceptedByScriptIff(sig: Script, pubKey: Script, c: Checker, parse: Bytes -> Script, given: Flags, s: Stack)
    requires PaysScript(pubKey, given)
    ensures var flags := InForce(given);
      Verify(sig, pubKey, c, parse, given) == Accepted(s) <==>
      sig.IsPushOnly() && Unlocks(sig, c, flags) &&
      var mid := EvalTo(sig, c, flags, []).value;
      mid != [] && EvalTrue(pubKey, c, flags, mid).Success? && Spends(parse(Top(mid, 1)), c, flags, Drop(mid, 1), s)
  {
    hide EvalTo, EvalTrue, EndsTrue, Script.IsPushOnly;
    var flags := InForce(given);
    assert EffectiveFlags(given) == flags;
    var r := EvalTo(sig, c, flags, []);
    if r.Success? && r.value != [] {
      TrueIff(parse(Top(r.value, 1)), c, flags, Drop(r.value, 1));
    }
  }

  /** The clean-stack rule without pay-to-script-hash panics exactly where the output could be spent without the rule. */
  lemma {:induction false} CleanStackNeedsP2SH(sig: Script, pubKey: Script, c: Checker, parse: Bytes -> Script, given: Flags)
    requires P2SH !in given
    ensures var flags := InForce(given);
      Verify(sig, pubKey, c, parse, given).Panicked? <==>
      CleanStack in given && Unlocks(sig, c, flags) &&
      exists s :: EvalTo(pubKey, c, flags, EvalTo(sig, c, flags, []).value) == Success(s) && EndsTrue(s)
  {
    hide EvalTo, EvalTrue, EndsTrue, Script.IsPushOnly;
    var flags := InForce(given);
    assert EffectiveFlags(given) == flags;
    var r := EvalTo(sig, c, flags, []);
    if r.Success? {
      TrueIff(pubKey, c, flags, r.value);
      var t := EvalTrue(pubKey, c, flags, r.value);
      assert t.Success? ==> t == Success(t.value);
    }
  }

  /* Signature scripts that only push */

  /** The value an opcode up to OP_16 pushes: its data, or the number from -1 to 16 it stands for. */
  function PushedValue(e: ParsedOp): Bytes {
    if e.op <= OP_PUSHDATA4 then e.data else Encode(e.op - 0x50)
  }

  function Values(ops: seq<ParsedOp>): (r: Stack)
    ensures |r| == |ops| && forall i :: 0 <= i < |ops| ==> r[i] == PushedValue(ops[i])
  {
    seq(|ops|, i requires 0 <= i < |ops| => PushedValue(ops[i]))
  }

  /** The push is within limits, not OP_RESERVED, and the shortest one if that is asked for. */
  predicate PushOk(e: ParsedOp, flags: Flags) {
    |e.data| <= 520 && e.op != 0x50 && (MinimalData in flags && e.op <= OP_PUSHDATA4 ==> CheckMinimalDataPush(e))
  }

  predicate AllPushesOk(ops: seq<ParsedOp>, flags: Flags) {
    |ops| <= 1000 && forall i :: 0 <= i < |ops| ==> PushOk(ops[i], flags)
  }

  predicate PushesOk(s: Script, flags: Flags) {
    |s.data| <= 10000 && AllPushesOk(s.ops, flags)
  }

  /** The state between opcodes of a script that neither branches nor checks signatures. */
  function At(s: Stack, opCount: nat): State { State(s, [], [], opCount, 0, 0) }

  lemma {:induction false} OnePush(ops: seq<ParsedOp>, i: nat, c: Checker, flags: Flags, s: Stack, n: nat)
    requires i < |ops| && ops[i].op <= OP_16
    ensures var o := Step(ops, i, c, flags, At(s, n));
      if PushOk(ops[i], flags) && |s| < 1000 then o == Running(At(s + [PushedValue(ops[i])], n)) else o.Failed?
  {
    hide Step, CheckMinimalDataPush, Encode, ControlOp, SignatureOp;
    Limits(ops, i, c, flags, At(s, n));
    if ops[i].op == 0x50 {
      assert Ran(0x50, ops, i, c, flags, At(s, n), Execute(ops, i, c, flags, At(s, n)));
      Others(0x50, ops, i, c, flags, At(s, n), Execute(ops, i, c, flags, At(s, n)));
    }
  }

  lemma {:induction false} PushesRun(ops: seq<ParsedOp>, c: Checker, flags: Flags, i: nat)
    requires i <= |ops| && forall j :: 0 <= j < |ops| ==> ops[j].op <= OP_16
    ensures var o := RunTo(ops, c, flags, [], i);
      if AllPushesOk(ops[..i], flags) then o == Running(At(Values(ops[..i]), 0)) else o.Failed?
  {
    hide Step, PushOk, PushedValue;
    if i > 0 {
      PushesRun(ops, c, flags, i - 1);
      var before := ops[..i - 1];
      assert ops[..i] == before + [ops[i - 1]];
      if AllPushesOk(before, flags) {
        OnePush(ops, i - 1, c, flags, Values(before), 0);
        assert Values(ops[..i]) == Values(before) + [PushedValue(ops[i - 1])];
        assert AllPushesOk(ops[..i], flags) <==> PushOk(ops[i - 1], flags) && |before| < 1000 by {
          assert forall j :: 0 <= j < i - 1 ==> ops[..i][j] == before[j];
          assert ops[..i][i - 1] == ops[i - 1];
        }
      } else {
        assert forall j :: 0 <= j < i - 1 ==> ops[..i][j] == before[j];
      }
    }
  }

  /** A push-only script leaves the values it pushes, the last on top, or fails. */
  lemma {:induction false} PushOnlyEvaluates(s: Script, c: Checker, flags: Flags)
    requires s.IsPushOnly()
    ensures if PushesOk(s, flags) then EvalTo(s, c, flags, []) == Success(Values(s.ops)) else EvalTo(s, c, flags, []).Failure?
  {
    hide RunTo, PushOk;
    PushesRun(s.ops, c, flags, |s.ops|);
    assert s.ops[..|s.ops|] == s.ops;
  }

  /* Pay to script hash */

  /** HASH160, the hash, EQUAL. */
  ghost predicate IsScriptHash(s: Script, h: Bytes) {
    |h| == 20 && !s.bad && s.data == [OP_HASH160, 0x14] + h + [OP_EQUAL] &&
    s.ops == [ParsedOp(OP_HASH160, []), ParsedOp(0x14, h), ParsedOp(OP_EQUAL, [])]
  }

  lemma {:induction false} ScriptHashPays(s: Script, h: Bytes)
    requires IsScriptHash(s, h)
    ensures s.IsPayToScriptHash()
  {
  }

  lemma {:induction false} HashStep(ops: seq<ParsedOp>, i: nat, c: Checker, flags: Flags, s: Stack, n: nat)
    requires i < |ops| && ops[i] == ParsedOp(OP_HASH160, []) && n < 201 && |s| <= 1000
    ensures var o := Step(ops, i, c, flags, At(s, n));
      if s == [] then o.Failed? else o == Running(At(s[..|s| - 1] + [c.hash(OP_HASH160, s[|s| - 1])], n + 1))
  {
    hide Step, Execute, Ran;
    Limits(ops, i, c, flags, At(s, n));
    var ready := At(s, n + 1);
    var o := Execute(ops, i, c, flags, ready);
    assert Ran(OP_HASH160, ops, i, c, flags, ready, o) by { RanHere(ops, i, c, flags, ready); }
    if s == [] {
      TooFewOperands(OP_HASH160, ops, i, c, flags, ready, o);
    } else {
      Hashed(OP_HASH160, ops, i, c, flags, ready, o, s[..|s| - 1], s[|s| - 1]);
    }
  }

  lemma {:induction false} RanHere(ops: seq<ParsedOp>, i: nat, c: Checker, flags: Flags, st: State)
    requires i < |ops| && st.exec == []
    ensures Ran(ops[i].op, ops, i, c, flags, st, Execute(ops, i, c, flags, st))
  {
  }

  lemma {:induction false} PushHashStep(ops: seq<ParsedOp>, i: nat, c: Checker, flags: Flags, s: Stack, n: nat, h: Bytes)
    requires i < |ops| && ops[i] == ParsedOp(0x14, h) && |h| == 20
    ensures var o := Step(ops, i, c, flags, At(s, n)); if |s| < 1000 then o == Running(At(s + [h], n)) else o.Failed?
  {
    hide Step;
    OnePush(ops, i, c, flags, s, n);
  }

  lemma {:induction false} EqualStep(ops: seq<ParsedOp>, i: nat, c: Checker, flags: Flags, s: Stack, a: Bytes, b: Bytes, n: nat)
    requires i < |ops| && ops[i].data == [] && n < 201 && |s| + 2 <= 1000
    ensures var o := Step(ops, i, c, flags, At(s + [a, b], n));
      (ops[i].op == OP_EQUAL ==> o == Running(At(s + [if a == b then [1] else []], n + 1))) &&
      (ops[i].op == OP_EQUALVERIFY ==> if a == b then o == Running(At(s, n + 1)) else o.Failed?)
  {
    hide Step, Execute, Ran;
    Limits(ops, i, c, flags, At(s + [a, b], n));
    var ready := At(s + [a, b], n + 1);
    RanHere(ops, i, c, flags, ready);
    Compared(ops[i].op, ops, i, c, flags, ready, Execute(ops, i, c, flags, ready), s, a, b);
  }

  /** The output script compares the hash of the top value. */
  lemma {:induction false} ScriptHashEvaluates(s: Script, h: Bytes, c: Checker, flags: Flags, from: Stack)
    requires IsScriptHash(s, h) && |from| <= 1000
    ensures EvalTrue(s, c, flags, from).Success? <==> 0 < |from| < 1000 && c.hash(OP_HASH160, from[|from| - 1]) == h
  {
    hide Step, Truth;
    HashStep(s.ops, 0, c, flags, from, 0);
    if from == [] {
      FailureSticks(s.ops, c, flags, from, 1, 3);
    }
    assert RunTo(s.ops, c, flags, from, 1) == Step(s.ops, 0, c, flags, At(from, 0));
    if from != [] {
      var rest, x := from[..|from| - 1], c.hash(OP_HASH160, from[|from| - 1]);
      PushHashStep(s.ops, 1, c, flags, rest + [x], 1, h);
      assert RunTo(s.ops, c, flags, from, 2) == Step(s.ops, 1, c, flags, At(rest + [x], 1));
      assert rest + [x] + [h] == rest + [x, h];
      if |from| < 1000 {
        EqualStep(s.ops, 2, c, flags, rest, x, h, 1);
        TruthOfBool();
      } else {
        FailureSticks(s.ops, c, flags, from, 2, 3);
      }
    }
  }

  lemma {:induction false} TruthOfBool()
    ensures Truth([1]) && !Truth([]) && Value([1]) != 0 && Value([]) == 0
  {
    assert [1][0] == 1;
    TruthIsNonZero([1]);
    TruthIsNonZero([]);
  }

  lemma {:induction false} EvaluatedFits(s: Script, c: Checker, flags: Flags)
    ensures EvalTo(s, c, flags, []).Success? ==> |EvalTo(s, c, flags, []).value| <= 1000
  {
    hide RunTo;
    if RunTo(s.ops, c, flags, [], |s.ops|).Running? {
      RunStaysSmall(s.ops, c, flags, |s.ops|);
    }
  }

  lemma {:induction false} RunStaysSmall(ops: seq<ParsedOp>, c: Checker, flags: Flags, i: nat)
    requires i <= |ops| && RunTo(ops, c, flags, [], i).Running?
    ensures |RunTo(ops, c, flags, [], i).state.stack| <= 1000
  {
    hide Execute;
  }

  /**
   Spending a pay-to-script-hash output: the signature script only pushes, what it pushes last hashes to the hash in the
   output, and as a script it can be spent with the values pushed before it.
   */
  lemma {:induction false} ScriptHashIff(sig: Script, pubKey: Script, h: Bytes, c: Checker, parse: Bytes -> Script, given: Flags,
      s: Stack)
    requires IsScriptHash(pubKey, h) && P2SH in given
    ensures var flags, v := InForce(given), Values(sig.ops);
      Verify(sig, pubKey, c, parse, given) == Accepted(s) <==>
      sig.IsPushOnly() && PushesOk(sig, flags) && 0 < |v| < 1000 && c.hash(OP_HASH160, v[|v| - 1]) == h &&
      Spends(parse(v[|v| - 1]), c, flags, v[..|v| - 1], s)
    ensures !Verify(sig, pubKey, c, parse, given).Panicked?
  {
    hide EvalTo, EvalTrue, Spends, PushesOk, Values, IsScriptHash, Verify, Script.IsPushOnly, Script.IsPayToScriptHash;
    var flags := InForce(given);
    ScriptHashPays(pubKey, h);
    AcceptedByScriptIff(sig, pubKey, c, parse, given, s);
    if sig.IsPushOnly() {
      PushOnlyEvaluates(sig, c, flags);
      if PushesOk(sig, flags) {
        EvaluatedFits(sig, c, flags);
        ScriptHashEvaluates(pubKey, h, c, flags, Values(sig.ops));
      }
    }
    NoPanic(sig, pubKey, h, c, parse, given);
  }

  lemma {:induction false} NoPanic(sig: Script, pubKey: Script, h: Bytes, c: Checker, parse: Bytes -> Script, given: Flags)
    requires IsScriptHash(pubKey, h) && P2SH in given
    ensures !Verify(sig, pubKey, c, parse, given).Panicked?
  {
    hide EvalTo, EvalTrue, IsScriptHash, Script.IsPushOnly, Script.IsPayToScriptHash;
    ScriptHashPays(pubKey, h);
    ScriptHashEvaluates(pubKey, h, c, EffectiveFlags(given), []);
  }

  /* Pay to public key hash */

  /** DUP, HASH160, the hash, EQUALVERIFY, CHECKSIG. */
  ghost predicate IsKeyHash(s: Script, h: Bytes) {
    |h| == 20 && !s.bad && s.data == [OP_DUP, OP_HASH160, 0x14] + h + [OP_EQUALVERIFY, OP_CHECKSIG] &&
    s.ops == [ParsedOp(OP_DUP, []), ParsedOp(OP_HASH160, []), ParsedOp(0x14, h), ParsedOp(OP_EQUALVERIFY, []),
              ParsedOp(OP_CHECKSIG, [])]
  }

  lemma {:induction false} DupStep(ops: seq<ParsedOp>, i: nat, c: Checker, flags: Flags, s: Stack, n: nat)
    requires i < |ops| && ops[i] == ParsedOp(OP_DUP, []) && n < 201
    ensures var o := Step(ops, i, c, flags, At(s, n));
      if 0 < |s| < 1000 then o == Running(At(s + [s[|s| - 1]], n + 1)) else o.Failed?
  {
    hide Step, Execute, Ran;
    Limits(ops, i, c, flags, At(s, n));
    var ready := At(s, n + 1);
    var o := Execute(ops, i, c, flags, ready);
    RanHere(ops, i, c, flags, ready);
    if s == [] {
      TooFewOperands(OP_DUP, ops, i, c, flags, ready, o);
    } else {
      var rest, x := s[..|s| - 1], s[|s| - 1];
      OneMoved(OP_DUP, ops, i, c, flags, ready, o, rest, x);
      assert rest + [x, x] == s + [x];
    }
  }

  /** Before the signature is checked: the key on top has the hash. */
  lemma {:induction false} KeyHashChecked(s: Script, h: Bytes, c: Checker, flags: Flags, from: Stack)
    requires IsKeyHash(s, h)
    ensures var o := RunTo(s.ops, c, flags, from, 4);
      if 0 < |from| && |from| + 2 <= 1000 && c.hash(OP_HASH160, from[|from| - 1]) == h then o == Running(At(from, 3)) else o.Failed?
  {
    hide Step;
    DupStep(s.ops, 0, c, flags, from, 0);
    assert RunTo(s.ops, c, flags, from, 1) == Step(s.ops, 0, c, flags, At(from, 0));
    if 0 < |from| < 1000 {
      var x := from[|from| - 1];
      HashStep(s.ops, 1, c, flags, from + [x], 1);
      assert (from + [x])[..|from|] == from;
      PushHashStep(s.ops, 2, c, flags, from + [c.hash(OP_HASH160, x)], 2, h);
      assert RunTo(s.ops, c, flags, from, 3) == Step(s.ops, 2, c, flags, At(from + [c.hash(OP_HASH160, x)], 2));
      assert from + [c.hash(OP_HASH160, x)] + [h] == from + [c.hash(OP_HASH160, x), h];
      if |from| + 2 <= 1000 {
        EqualStep(s.ops, 3, c, flags, from, c.hash(OP_HASH160, x), h, 2);
      } else {
        FailureSticks(s.ops, c, flags, from, 3, 4);
      }
    } else {
      FailureSticks(s.ops, c, flags, from, 1, 4);
    }
  }

  /** The signature and the key on a stack, and the rest. */
  ghost predicate SignedFor(s: Script, h: Bytes, c: Checker, flags: Flags, sig: Bytes, key: Bytes) {
    c.hash(OP_HASH160, key) == h && WellFormedPair(c, sig, key, flags) &&
    Asked(c, flags, sig, key, Without(s.ops, {sig})) == Success(true)
  }

  lemma {:induction false} SignatureStep(ops: seq<ParsedOp>, i: nat, c: Checker, flags: Flags, s: Stack, n: nat)
    requires i < |ops| && ops[i] == ParsedOp(OP_CHECKSIG, []) && n < 201 && |s| <= 1000
    ensures var o := Step(ops, i, c, flags, At(s, n));
      (o.Running? ==> |s| >= 2 && o.state.exec == []) &&
      (|s| >= 2 ==>
         var base, sig, key := s[..|s| - 2], s[|s| - 2], s[|s| - 1];
         var signed := WellFormedPair(c, sig, key, flags) && Asked(c, flags, sig, key, Without(ops, {sig})) == Success(true);
         (signed ==> o.Running?) && (o.Running? ==> o.state.stack == base + [if signed then [1] else []]))
  {
    hide Step, Execute, Ran, WellFormedPair, Without, Breaks;
    Limits(ops, i, c, flags, At(s, n));
    var ready := At(s, n + 1);
    var o := Execute(ops, i, c, flags, ready);
    RanHere(ops, i, c, flags, ready);
    if |s| < 2 {
      TooFewOperands(OP_CHECKSIG, ops, i, c, flags, ready, o);
    } else {
      assert s == s[..|s| - 2] + [s[|s| - 2], s[|s| - 1]];
      assert ops[0..] == ops;
      SignatureChecked(OP_CHECKSIG, ops, i, c, flags, ready, o, s[..|s| - 2], s[|s| - 2], s[|s| - 1]);
    }
  }

  /** The output is spent from exactly the stacks that end with a signature and the key it hashes, which it signs for. */
  lemma {:induction false} KeyHashSpends(s: Script, h: Bytes, c: Checker, flags: Flags, from: Stack, to: Stack)
    requires IsKeyHash(s, h)
    ensures Spends(s, c, flags, from, to) <==>
      2 <= |from| <= 998 && SignedFor(s, h, c, flags, from[|from| - 2], from[|from| - 1]) &&
      to == from[..|from| - 2] + [[1]] && EndsClean(to, flags)
  {
    hide Step, WellFormedPair, Without, Value, Truth;
    KeyHashChecked(s, h, c, flags, from);
    TruthOfBool();
    if RunTo(s.ops, c, flags, from, 4).Running? {
      SignatureStep(s.ops, 4, c, flags, from, 3);
      assert RunTo(s.ops, c, flags, from, 5) == Step(s.ops, 4, c, flags, At(from, 3));
    } else {
      FailureSticks(s.ops, c, flags, from, 4, 5);
    }
  }

  lemma {:induction false} KeyHashIsPlain(s: Script, h: Bytes, given: Flags)
    requires IsKeyHash(s, h)
    ensures !PaysScript(s, given)
  {
  }

  /** Spending a pay-to-public-key-hash output with any signature script. */
  lemma {:induction false} KeyHashIff(sig: Script, pubKey: Script, h: Bytes, c: Checker, parse: Bytes -> Script, given: Flags, s: Stack)
    requires IsKeyHash(pubKey, h) && (CleanStack in given ==> P2SH in given)
    ensures var flags := InForce(given);
      Verify(sig, pubKey, c, parse, given) == Accepted(s) <==>
      Unlocks(sig, c, flags) &&
      var from := EvalTo(sig, c, flags, []).value;
      2 <= |from| <= 998 && SignedFor(pubKey, h, c, flags, from[|from| - 2], from[|from| - 1]) &&
      s == from[..|from| - 2] + [[1]] && EndsClean(s, flags)
  {
    hide EvalTo, Spends, Verify, IsKeyHash, PaysScript, SignedFor;
    KeyHashIsPlain(pubKey, h, given);
    AcceptedIff(sig, pubKey, c, parse, given, s);
    var flags := InForce(given);
    if Unlocks(sig, c, flags) {
      KeyHashSpends(pubKey, h, c, flags, EvalTo(sig, c, flags, []).value, s);
    }
  }

  /** With a signature script of two pushes: one signature, one key. */
  lemma {:induction false} KeyHashTwoPushes(sig: Script, pubKey: Script, h: Bytes, c: Checker, parse: Bytes -> Script, given: Flags)
    requires IsKeyHash(pubKey, h) && (CleanStack in given ==> P2SH in given)
    requires sig.IsPushOnly() && PushesOk(sig, InForce(given)) && |sig.ops| == 2
    ensures Verify(sig, pubKey, c, parse, given).Accepted? <==>
      SignedFor(pubKey, h, c, InForce(given), PushedValue(sig.ops[0]), PushedValue(sig.ops[1]))
  {
    hide EvalTo, Verify, IsKeyHash, SignedFor, PushesOk, PushedValue, Script.IsPushOnly;
    var flags := InForce(given);
    PushOnlyEvaluates(sig, c, flags);
    KeyHashIff(sig, pubKey, h, c, parse, given, [[1]]);
    var v := Verify(sig, pubKey, c, parse, given);
    if v.Accepted? {
      KeyHashIff(sig, pubKey, h, c, parse, given, v.stack);
    }
  }

  /* Pay to m of n public keys */

  /** The number m, pushes of the keys, their number n and CHECKMULTISIG. */
  ghost predicate IsMultisigOutput(s: Script, m: nat, pushes: seq<ParsedOp>) {
    1 <= m <= |pushes| <= 16 && !s.bad && 0 < |s.data| <= 10000 && s.data[0] == 0x50 + m &&
    (forall i :: 0 <= i < |pushes| ==> pushes[i].op <= OP_PUSHDATA4) &&
    s.ops == [ParsedOp(0x50 + m, [])] + pushes + [ParsedOp(0x50 + |pushes|, []), ParsedOp(OP_CHECKMULTISIG, [])]
  }

  lemma {:induction false} SmallNumber(m: nat, flags: Flags)
    requires 1 <= m <= 16
    ensures IsNumber(Encode(m), flags, 4) && Value(Encode(m)) == m
  {
    assert Digits(m) == [m];
    EncodeRoundTrip(m);
  }

  lemma {:induction false} KeysArePushed(s: Script, m: nat, pushes: seq<ParsedOp>, c: Checker, flags: Flags, from: Stack, i: nat)
    requires IsMultisigOutput(s, m, pushes) && i <= |pushes|
    ensures var o := RunTo(s.ops, c, flags, from, i + 1);
      if |from| + i < 1000 && AllPushesOk(pushes[..i], flags) then o == Running(At(from + [Encode(m)] + Values(pushes[..i]), 0))
      else o.Failed?
  {
    hide Step, PushOk, PushedValue, Encode;
    if i == 0 {
      OnePush(s.ops, 0, c, flags, from, 0);
      NumberPush(m, flags);
      assert RunTo(s.ops, c, flags, from, 1) == Step(s.ops, 0, c, flags, At(from, 0));
      assert from + [Encode(m)] + Values(pushes[..0]) == from + [Encode(m)];
    } else {
      KeysArePushed(s, m, pushes, c, flags, from, i - 1);
      var before := pushes[..i - 1];
      var below := from + [Encode(m)] + Values(before);
      assert s.ops[i] == pushes[i - 1];
      OnePush(s.ops, i, c, flags, below, 0);
      assert pushes[..i] == before + [pushes[i - 1]];
      assert below + [PushedValue(pushes[i - 1])] == from + [Encode(m)] + Values(pushes[..i]);
      OneMoreOk(pushes, flags, i);
    }
  }

  lemma {:induction false} NumberPush(m: nat, flags: Flags)
    requires 1 <= m <= 16
    ensures PushOk(ParsedOp(0x50 + m, []), flags) && PushedValue(ParsedOp(0x50 + m, [])) == Encode(m)
  {
  }

  lemma {:induction false} OneMoreOk(ops: seq<ParsedOp>, flags: Flags, i: nat)
    requires 0 < i <= |ops| <= 1000
    ensures AllPushesOk(ops[..i], flags) <==> AllPushesOk(ops[..i - 1], flags) && PushOk(ops[i - 1], flags)
  {
    hide PushOk;
    assert ops[..i] == ops[..i - 1] + [ops[i - 1]];
    if AllPushesOk(ops[..i], flags) {
      assert forall j :: 0 <= j < i - 1 ==> ops[..i - 1][j] == ops[..i][j];
      assert ops[..i][i - 1] == ops[i - 1];
    }
  }

  /** What the opcode finds on the stack. */
  lemma {:induction false} MultisigReady(s: Script, m: nat, pushes: seq<ParsedOp>, c: Checker, flags: Flags, from: Stack)
    requires IsMultisigOutput(s, m, pushes)
    ensures var n, o := |pushes|, RunTo(s.ops, c, flags, from, |pushes| + 2);
      if |from| + n + 2 <= 1000 && AllPushesOk(pushes, flags)
      then o == Running(At(from + [Encode(m)] + Values(pushes) + [Encode(n)], 0)) else o.Failed?
  {
    hide Step, PushOk, PushedValue, Encode;
    var n := |pushes|;
    KeysArePushed(s, m, pushes, c, flags, from, n);
    assert pushes[..n] == pushes;
    OnePush(s.ops, n + 1, c, flags, from + [Encode(m)] + Values(pushes), 0);
    NumberPush(n, flags);
  }

  /** Enough signatures of the keys, and a dummy value as the flags ask for it. */
  ghost predicate CoSigned(s: Script, keys: seq<Bytes>, c: Checker, flags: Flags, dummy: Bytes, sigs: seq<Bytes>) {
    (NullDummy in flags ==> dummy == []) &&
    Fits(c, flags, Without(s.ops, Elements(sigs)), keys, sigs, |keys|, |sigs|)
  }

  lemma {:induction false} MultisigStep(s: Script, i: nat, m: nat, keys: seq<Bytes>, c: Checker, flags: Flags, from: Stack)
    requires i < |s.ops| && s.ops[i] == ParsedOp(OP_CHECKMULTISIG, []) && 1 <= m <= |keys| <= 16 && |from| + |keys| + 2 <= 1000
    ensures var o := Step(s.ops, i, c, flags, At(from + [Encode(m)] + keys + [Encode(|keys|)], 0));
      (o.Running? ==> |from| > m && o.state.exec == []) &&
      (|from| > m ==>
         var base, dummy, sigs := from[..|from| - m - 1], from[|from| - m - 1], from[|from| - m..];
         (CoSigned(s, keys, c, flags, dummy, sigs) ==> o.Running?) &&
         (o.Running? ==> o.state.stack == base + [if CoSigned(s, keys, c, flags, dummy, sigs) then [1] else []]))
  {
    hide Step, Execute, Ran, Encode, Without, Fits, Value, IsNumber, CanMatch, NoBadPair, RunTo;
    var n, all := |keys|, from + [Encode(m)] + keys + [Encode(|keys|)];
    var ready := At(all, 1);
    Limits(s.ops, i, c, flags, At(all, 0));
    var o := Execute(s.ops, i, c, flags, ready);
    RanHere(s.ops, i, c, flags, ready);
    SmallNumber(m, flags);
    SmallNumber(n, flags);
    if o.Running? {
      MultisigNeeds(OP_CHECKMULTISIG, s.ops, i, c, flags, ready, o);
      var a :| EndsWith(all, a, flags) && ready.opCount + |a.keys| <= 201;
      EnoughThere(from, m, keys, a, flags);
    }
    if |from| > m {
      var a := Operands(from[..|from| - m - 1], from[|from| - m - 1], from[|from| - m..], Encode(m), keys, Encode(n));
      assert from == a.base + [a.dummy] + a.sigs;
      assert EndsWith(all, a, flags);
      assert s.ops[0..] == s.ops;
      MultisigChecked(OP_CHECKMULTISIG, s.ops, i, c, flags, ready, o, a);
    }
  }

  lemma {:induction false} EnoughThere(from: Stack, m: nat, keys: seq<Bytes>, a: Operands, flags: Flags)
    requires EndsWith(from + [Encode(m)] + keys + [Encode(|keys|)], a, flags)
    ensures |from| > m
  {
    hide Encode, Value, IsNumber;
    EncodeRoundTrip(m);
    EncodeRoundTrip(|keys|);
    var all := from + [Encode(m)] + keys + [Encode(|keys|)];
    assert all[|all| - 1] == a.n;
    assert all[|all| - 2 - |a.keys|] == a.m;
  }

  /** The output is spent from exactly the stacks that end with a dummy value and m signatures that fit. */
  lemma {:induction false} MultisigSpends(s: Script, m: nat, pushes: seq<ParsedOp>, c: Checker, flags: Flags, from: Stack, to: Stack)
    requires IsMultisigOutput(s, m, pushes)
    ensures Spends(s, c, flags, from, to) <==>
      AllPushesOk(pushes, flags) && m < |from| <= 998 - |pushes| &&
      CoSigned(s, Values(pushes), c, flags, from[|from| - m - 1], from[|from| - m..]) &&
      to == from[..|from| - m - 1] + [[1]] && EndsClean(to, flags)
  {
    hide Step, CoSigned, Value, Encode, AllPushesOk, Values;
    MultisigReady(s, m, pushes, c, flags, from);
    TruthOfBool();
    var n := |pushes|;
    if RunTo(s.ops, c, flags, from, n + 2).Running? {
      var keys := Values(pushes);
      MultisigStep(s, n + 2, m, keys, c, flags, from);
      assert RunTo(s.ops, c, flags, from, n + 3) ==
             Step(s.ops, n + 2, c, flags, At(from + [Encode(m)] + keys + [Encode(n)], 0));
    } else {
      FailureSticks(s.ops, c, flags, from, n + 2, n + 3);
    }
  }

  /** Spending an m-of-n output with any signature script. */
  lemma {:induction false} MultisigIff(sig: Script, pubKey: Script, m: nat, pushes: seq<ParsedOp>, c: Checker,
      parse: Bytes -> Script, given: Flags, s: Stack)
    requires IsMultisigOutput(pubKey, m, pushes) && (CleanStack in given ==> P2SH in given)
    ensures var flags := InForce(given);
      Verify(sig, pubKey, c, parse, given) == Accepted(s) <==>
      Unlocks(sig, c, flags) && AllPushesOk(pushes, flags) &&
      var from := EvalTo(sig, c, flags, []).value;
      m < |from| <= 998 - |pushes| &&
      CoSigned(pubKey, Values(pushes), c, flags, from[|from| - m - 1], from[|from| - m..]) &&
      s == from[..|from| - m - 1] + [[1]] && EndsClean(s, flags)
  {
    hide EvalTo, Spends, Verify, CoSigned, AllPushesOk, Values;
    AcceptedIff(sig, pubKey, c, parse, given, s);
    var flags := InForce(given);
    if Unlocks(sig, c, flags) {
      MultisigSpends(pubKey, m, pushes, c, flags, EvalTo(sig, c, flags, []).value, s);
    }
  }

  /**
   With a signature script of a dummy and m signatures, none of them malformed for any key: accepted exactly when each
   signature has a key of its own that it signs for, in the order in which the keys stand in the output.
   */
  lemma {:induction false} MultisigPushes(sig: Script, pubKey: Script, m: nat, pushes: seq<ParsedOp>, c: Checker,
      parse: Bytes -> Script, given: Flags)
    requires IsMultisigOutput(pubKey, m, pushes) && (CleanStack in given ==> P2SH in given)
    requires sig.IsPushOnly() && PushesOk(sig, InForce(given)) && |sig.ops| == m + 1 && AllPushesOk(pushes, InForce(given))
    requires var sigs := Values(sig.ops[1..]);
      NoBadPair(c, InForce(given), Without(pubKey.ops, Elements(sigs)), Values(pushes), sigs)
    ensures var sigs := Values(sig.ops[1..]);
      Verify(sig, pubKey, c, parse, given).Accepted? <==>
      (NullDummy in given ==> PushedValue(sig.ops[0]) == []) &&
      CanMatch(c, InForce(given), Without(pubKey.ops, Elements(sigs)), Values(pushes), sigs, 0, 0)
  {
    hide EvalTo, Verify, IsMultisigOutput, Fits, CanMatch, NoBadPair, AllPushesOk, PushedValue, Script.IsPushOnly, Without;
    var flags, from, sigs := InForce(given), Values(sig.ops), Values(sig.ops[1..]);
    PushOnlyEvaluates(sig, c, flags);
    assert from[1..] == sigs && from[..0] == [];
    AtMostSixteen(pubKey, m, pushes);
    FitsIffMatching(c, flags, Without(pubKey.ops, Elements(sigs)), Values(pushes), sigs);
    MultisigIff(sig, pubKey, m, pushes, c, parse, given, [[1]]);
    var v := Verify(sig, pubKey, c, parse, given);
    if v.Accepted? {
      MultisigIff(sig, pubKey, m, pushes, c, parse, given, v.stack);
    }
  }

  lemma {:induction false} AtMostSixteen(s: Script, m: nat, pushes: seq<ParsedOp>)
    requires IsMultisigOutput(s, m, pushes)
    ensures 1 <= m <= |pushes| <= 16
  {
  }
}
