/** What the signature opcodes mean: which pairs of signature and key must pass, over which code. */
module ScriptSignatures {
  import opened Wrappers
  import opened Basics
  import opened ScriptNum
  import opened ScriptOps
  import opened ScriptFlags
  import opened Multisig
  import opened ScriptEval
  import opened ScriptMeaning

  /* Encodings */

  /** The signature is well formed, as strictly as the flags ask. */
  predicate WellFormedSignature(c: Checker, sig: Bytes, flags: Flags) {
    ((Dersig in flags || LowS in flags || StrictEnc in flags) ==> c.isValidSignature(sig)) && (LowS in flags ==> c.isLowS(sig))
  }

  predicate WellFormedKey(c: Checker, key: Bytes, flags: Flags) {
    (StrictEnc in flags ==> c.isPubKey(key)) && (CompressedPubkeyType in flags ==> c.isCompressedPubKey(key))
  }

  /** A signature, if there is one, ends with a byte for its hash type, which says whether it uses the fork id. */
  predicate WellFormedPair(c: Checker, sig: Bytes, key: Bytes, flags: Flags) {
    WellFormedKey(c, key, flags) &&
    (sig != [] ==>
       WellFormedSignature(c, sig[..|sig| - 1], flags) &&
       (StrictEnc in flags ==> c.hasDefinedHashType(sig) && (c.usesForkId(sig) <==> SigHashForkID in flags)))
  }

  /** The rule that an encoding error names is switched on and broken. */
  predicate Breaks(e: ScriptError, c: Checker, sig: Bytes, body: Bytes, key: Bytes, flags: Flags) {
    match e
    case SigDer => (Dersig in flags || LowS in flags || StrictEnc in flags) && !c.isValidSignature(body)
    case SigHighS => LowS in flags && !c.isLowS(body)
    case SigHashType => StrictEnc in flags && !c.hasDefinedHashType(sig)
    case IllegalForkId => StrictEnc in flags && SigHashForkID !in flags && c.usesForkId(sig)
    case MustUseForkId => StrictEnc in flags && SigHashForkID in flags && !c.usesForkId(sig)
    case PubKeyType => StrictEnc in flags && !c.isPubKey(key)
    case NonCompressedPubKey => CompressedPubkeyType in flags && !c.isCompressedPubKey(key)
    case _ => false
  }

  predicate IsKeyError(e: ScriptError) { e == PubKeyType || e == NonCompressedPubKey }

  /** The signature before its hash type. */
  function Body(sig: Bytes): Bytes {
    if sig == [] then [] else sig[..|sig| - 1]
  }

  lemma {:induction false} PairErrorIff(c: Checker, sig: Bytes, key: Bytes, flags: Flags)
    ensures var e := PairError(c, sig, key, flags);
      if WellFormedPair(c, sig, key, flags) then e.None?
      else e.Some? && Breaks(e.value, c, sig, Body(sig), key, flags) && (sig == [] ==> IsKeyError(e.value))
  {
  }

  /* The code that is signed */

  predicate IsPushOf(e: ParsedOp, data: set<Bytes>) {
    e.data in data && CheckCompactDataPush(e)
  }

  /** ops without the shortest pushes of any of data, everything else in order. */
  function Without(ops: seq<ParsedOp>, data: set<Bytes>): seq<ParsedOp> {
    if ops == [] then []
    else
      var last := ops[|ops| - 1];
      Without(ops[..|ops| - 1], data) + if IsPushOf(last, data) then [] else [last]
  }

  lemma {:induction false} WithoutFirst(ops: seq<ParsedOp>, data: set<Bytes>)
    requires ops != []
    ensures Without(ops, data) == (if IsPushOf(ops[0], data) then [] else [ops[0]]) + Without(ops[1..], data)
  {
    hide IsPushOf;
    if |ops| > 1 {
      var front := ops[..|ops| - 1];
      WithoutFirst(front, data);
      assert front[1..] == ops[1..][..|ops| - 2];
    } else {
      assert ops[..0] == [] && ops[1..] == [];
    }
  }

  lemma {:induction false} RemovedOne(ops: seq<ParsedOp>, data: Bytes)
    ensures RemoveOpcodeByData(ops, data) == Without(ops, {data})
  {
    hide Without;
    if ops == [] {
      assert Without(ops, {data}) == [] by { NothingLeft({data}); }
    } else {
      WithoutFirst(ops, {data});
      RemovedOne(ops[1..], data);
    }
  }

  lemma {:induction false} NothingLeft(data: set<Bytes>)
    ensures Without([], data) == []
  {
  }

  lemma {:induction false} WithoutBoth(ops: seq<ParsedOp>, a: set<Bytes>, b: set<Bytes>)
    ensures Without(Without(ops, a), b) == Without(ops, a + b)
  {
    hide CheckCompactDataPush;
    if ops != [] {
      var front, last := ops[..|ops| - 1], ops[|ops| - 1];
      WithoutBoth(front, a, b);
      if !IsPushOf(last, a) {
        var r := Without(front, a) + [last];
        assert r[..|r| - 1] == Without(front, a);
      } else {
        assert Without(ops, a) == Without(front, a);
      }
    }
  }

  lemma {:induction false} WithoutNothing(ops: seq<ParsedOp>)
    ensures Without(ops, {}) == ops
  {
    if ops != [] {
      WithoutNothing(ops[..|ops| - 1]);
      assert ops == ops[..|ops| - 1] + [ops[|ops| - 1]];
    }
  }

  function Elements(s: seq<Bytes>): set<Bytes> {
    set x | x in s
  }

  /** The signatures are taken out one after the other, which is all at once. */
  lemma {:induction false} RemovedAll(ops: seq<ParsedOp>, sigs: seq<Bytes>)
    ensures RemoveAll(ops, sigs) == Without(ops, Elements(sigs))
    decreases |sigs|
  {
    hide Without, RemoveOpcodeByData;
    if sigs == [] {
      WithoutNothing(ops);
      assert Elements(sigs) == {};
    } else {
      RemovedOne(ops, sigs[0]);
      RemovedAll(RemoveOpcodeByData(ops, sigs[0]), sigs[1..]);
      WithoutBoth(ops, {sigs[0]}, Elements(sigs[1..]));
      assert sigs == [sigs[0]] + sigs[1..];
      assert Elements(sigs) == {sigs[0]} + Elements(sigs[1..]);
    }
  }

  /* One signature */

  /** The answer of the checker to: does sig sign this input for key, over code? */
  function Asked(c: Checker, flags: Flags, sig: Bytes, key: Bytes, code: seq<ParsedOp>): Result<bool, ScriptError> {
    c.checkSig(sig, key, code, SigHashForkID in flags, ReplayProtection in flags)
  }

  /** A failed check that may not be a failed check: under the null-fail rule only an empty signature may fail. */
  predicate MayFail(sig: Bytes, flags: Flags) {
    NullFail in flags ==> sig == []
  }

  /** CHECKSIG asks about the second value and the top one, over the script since the last code separator. */
  lemma {:induction false} SignatureChecked(op: Byte, ops: seq<ParsedOp>, i: nat, c: Checker, flags: Flags, st: State, o: Outcome,
      base: Stack, sig: Bytes, key: Bytes)
    requires Ran(op, ops, i, c, flags, st, o) && (op == OP_CHECKSIG || op == OP_CHECKSIGVERIFY)
    requires st.stack == base + [sig, key] && st.begin <= |ops|
    ensures var answer := Asked(c, flags, sig, key, Without(ops[st.begin..], {sig}));
      var next := st.(checks := st.checks + 1);
      if !WellFormedPair(c, sig, key, flags)
      then o.Failed? && Fails(o, st, o.error) && Breaks(o.error, c, sig, Body(sig), key, flags)
      else if answer.Failure? then Fails(o, next, answer.error)
      else if !answer.value && !MayFail(sig, flags) then Fails(o, next, SigNullFail)
      else if op == OP_CHECKSIG then LeavesBool(o, next, base, answer.value)
      else if answer.value then Leaves(o, next, base)
      else Fails(o, next, CheckSigVerify)
  {
    hide PairError, WellFormedPair, Breaks, RemoveOpcodeByData, Without, ControlOp, PlainOp;
    PairErrorIff(c, sig, key, flags);
    RemovedOne(ops[st.begin..], sig);
    assert Top(st.stack, 2) == sig && Top(st.stack, 1) == key && Drop(st.stack, 2) == base;
  }

  /** CHECKDATASIG asks about a signature of a message; it makes no check for an empty signature. */
  lemma {:induction false} DataSignatureChecked(op: Byte, ops: seq<ParsedOp>, i: nat, c: Checker, flags: Flags, st: State,
      o: Outcome, base: Stack, sig: Bytes, message: Bytes, key: Bytes)
    requires Ran(op, ops, i, c, flags, st, o) && (op == OP_CHECKDATASIG || op == OP_CHECKDATASIGVERIFY)
    requires st.stack == base + [sig, message, key]
    ensures var ok := sig != [] && c.verifyData(sig, message, key);
      var next := st.(checks := st.checks + if sig != [] then 1 else 0);
      if CheckDataSig !in flags then Fails(o, st, BadOpCode)
      else if !(WellFormedKey(c, key, flags) && (sig != [] ==> WellFormedSignature(c, sig, flags)))
      then o.Failed? && Fails(o, st, o.error) && Breaks(o.error, c, sig, sig, key, flags)
      else if !ok && !MayFail(sig, flags) then Fails(o, next, SigNullFail)
      else if op == OP_CHECKDATASIG then LeavesBool(o, next, base, ok)
      else if ok then Leaves(o, next, base)
      else Fails(o, next, CheckDataSigVerify)
  {
    hide ControlOp, PlainOp;
    assert Top(st.stack, 3) == sig && Top(st.stack, 2) == message && Top(st.stack, 1) == key && Drop(st.stack, 3) == base;
  }

  /* Several signatures, keys and signatures in the order of the script */

  /** The pair is well formed, and the checker answers b. */
  ghost predicate Tried(c: Checker, flags: Flags, code: seq<ParsedOp>, sig: Bytes, key: Bytes, b: bool) {
    WellFormedPair(c, sig, key, flags) && Asked(c, flags, sig, key, code) == Success(b)
  }

  /** The key that ends the search for signature j: the one of the next signature, or the end. */
  function Bound(a: seq<nat>, n: nat, j: nat): nat
    requires j < |a|
  {
    if j + 1 < |a| then a[j + 1] else n
  }

  /** Signature j finds its key at a[j] when the keys are tried downwards from below the next signature's key. */
  ghost predicate Finds(c: Checker, flags: Flags, code: seq<ParsedOp>, keys: seq<Bytes>, sig: Bytes, at: nat, bound: nat) {
    at < bound <= |keys| && forall t :: at <= t < bound ==> Tried(c, flags, code, sig, keys[t], t == at)
  }

  /** The last keys that the first m signatures can have among the first n keys, with no bad pair on the way. */
  ghost predicate LastFit(c: Checker, flags: Flags, code: seq<ParsedOp>, keys: seq<Bytes>, sigs: seq<Bytes>, n: nat, m: nat,
      a: seq<nat>)
    requires m <= |sigs|
  {
    |a| == m && forall j :: 0 <= j < m ==> Finds(c, flags, code, keys, sigs[j], a[j], Bound(a, n, j))
  }

  ghost predicate Fits(c: Checker, flags: Flags, code: seq<ParsedOp>, keys: seq<Bytes>, sigs: seq<Bytes>, n: nat, m: nat)
    requires m <= |sigs|
  {
    exists a :: LastFit(c, flags, code, keys, sigs, n, m, a)
  }

  function Rev(s: seq<Bytes>): (r: seq<Bytes>)
    ensures |r| == |s| && forall i :: 0 <= i < |s| ==> r[i] == s[|s| - 1 - i]
  {
    seq(|s|, i requires 0 <= i < |s| => s[|s| - 1 - i])
  }

  /** The last signature finds the last key. */
  lemma {:induction false} FitsTaken(c: Checker, flags: Flags, code: seq<ParsedOp>, keys: seq<Bytes>, sigs: seq<Bytes>, n: nat, m: nat)
    requires 0 < m <= |sigs| && 0 < n <= |keys| && Tried(c, flags, code, sigs[m - 1], keys[n - 1], true)
    ensures Fits(c, flags, code, keys, sigs, n, m) <==> Fits(c, flags, code, keys, sigs, n - 1, m - 1)
  {
    hide Finds, Tried;
    if Fits(c, flags, code, keys, sigs, n, m) {
      var a: seq<nat> :| LastFit(c, flags, code, keys, sigs, n, m, a);
      var b := a[..m - 1];
      LastFound(c, flags, code, keys, sigs[m - 1], a[m - 1], n);
      assert forall j :: 0 <= j < m - 1 ==> b[j] == a[j] && Bound(b, n - 1, j) == Bound(a, n, j);
      assert LastFit(c, flags, code, keys, sigs, n - 1, m - 1, b);
    }
    if Fits(c, flags, code, keys, sigs, n - 1, m - 1) {
      var b: seq<nat> :| LastFit(c, flags, code, keys, sigs, n - 1, m - 1, b);
      var a := b + [n - 1];
      FoundAtOnce(c, flags, code, keys, sigs[m - 1], n);
      assert forall j :: 0 <= j < m - 1 ==> b[j] == a[j] && Bound(b, n - 1, j) == Bound(a, n, j);
      assert LastFit(c, flags, code, keys, sigs, n, m, a);
    }
  }

  lemma {:induction false} FoundAtOnce(c: Checker, flags: Flags, code: seq<ParsedOp>, keys: seq<Bytes>, sig: Bytes, n: nat)
    requires 0 < n <= |keys| && Tried(c, flags, code, sig, keys[n - 1], true)
    ensures Finds(c, flags, code, keys, sig, n - 1, n)
  {
  }

  lemma {:induction false} LastFound(c: Checker, flags: Flags, code: seq<ParsedOp>, keys: seq<Bytes>, sig: Bytes, at: nat, n: nat)
    requires Finds(c, flags, code, keys, sig, at, n) && 0 < n <= |keys| && Tried(c, flags, code, sig, keys[n - 1], true)
    ensures at == n - 1
  {
    assert Tried(c, flags, code, sig, keys[n - 1], n - 1 == at);
  }

  /** The last signature does not sign for the last key. */
  lemma {:induction false} FitsSkipped(c: Checker, flags: Flags, code: seq<ParsedOp>, keys: seq<Bytes>, sigs: seq<Bytes>, n: nat, m: nat)
    requires 0 < m <= |sigs| && 0 < n <= |keys| && Tried(c, flags, code, sigs[m - 1], keys[n - 1], false)
    ensures Fits(c, flags, code, keys, sigs, n, m) <==> Fits(c, flags, code, keys, sigs, n - 1, m)
  {
    hide Finds;
    if Fits(c, flags, code, keys, sigs, n, m) {
      var a: seq<nat> :| LastFit(c, flags, code, keys, sigs, n, m, a);
      FindsShorter(c, flags, code, keys, sigs[m - 1], a[m - 1], n);
      assert forall j :: 0 <= j < m - 1 ==> Bound(a, n - 1, j) == Bound(a, n, j);
      assert LastFit(c, flags, code, keys, sigs, n - 1, m, a);
    }
    if Fits(c, flags, code, keys, sigs, n - 1, m) {
      var a: seq<nat> :| LastFit(c, flags, code, keys, sigs, n - 1, m, a);
      FindsShorter(c, flags, code, keys, sigs[m - 1], a[m - 1], n);
      assert forall j :: 0 <= j < m - 1 ==> Bound(a, n - 1, j) == Bound(a, n, j);
      assert LastFit(c, flags, code, keys, sigs, n, m, a);
    }
  }

  lemma {:induction false} FindsShorter(c: Checker, flags: Flags, code: seq<ParsedOp>, keys: seq<Bytes>, sig: Bytes, at: nat, n: nat)
    requires 0 < n <= |keys| && Tried(c, flags, code, sig, keys[n - 1], false)
    ensures Finds(c, flags, code, keys, sig, at, n) <==> Finds(c, flags, code, keys, sig, at, n - 1)
  {
    if Finds(c, flags, code, keys, sig, at, n) {
      assert Tried(c, flags, code, sig, keys[n - 1], n - 1 == at);
    }
  }

  /** A bad pair ends the search. */
  lemma {:induction false} FitsBroken(c: Checker, flags: Flags, code: seq<ParsedOp>, keys: seq<Bytes>, sigs: seq<Bytes>, n: nat, m: nat)
    requires 0 < m <= |sigs| && 0 < n <= |keys|
    requires !Tried(c, flags, code, sigs[m - 1], keys[n - 1], true) && !Tried(c, flags, code, sigs[m - 1], keys[n - 1], false)
    ensures !Fits(c, flags, code, keys, sigs, n, m)
  {
    hide Tried;
    forall a: seq<nat> | |a| == m
      ensures !LastFit(c, flags, code, keys, sigs, n, m, a)
    {
      var here := n - 1 == a[m - 1];
      assert !Tried(c, flags, code, sigs[m - 1], keys[n - 1], here);
      assert !Finds(c, flags, code, keys, sigs[m - 1], a[m - 1], Bound(a, n, m - 1));
    }
  }

  /** More signatures than keys fit nowhere. */
  lemma {:induction false} FitsNowhere(c: Checker, flags: Flags, code: seq<ParsedOp>, keys: seq<Bytes>, sigs: seq<Bytes>, n: nat, m: nat)
    requires n < m <= |sigs|
    ensures !Fits(c, flags, code, keys, sigs, n, m)
  {
    forall a | LastFit(c, flags, code, keys, sigs, n, m, a)
      ensures false
    {
      FitAtLeast(c, flags, code, keys, sigs, n, m, a, m - 1);
    }
  }

  lemma {:induction false} FitAtLeast(c: Checker, flags: Flags, code: seq<ParsedOp>, keys: seq<Bytes>, sigs: seq<Bytes>, n: nat,
      m: nat, a: seq<nat>, j: nat)
    requires m <= |sigs| && LastFit(c, flags, code, keys, sigs, n, m, a) && j < m
    ensures j <= a[j] < n || j + 1 < m
    ensures j <= a[j]
  {
    hide Tried;
    assert Finds(c, flags, code, keys, sigs[j], a[j], Bound(a, n, j));
    if j > 0 {
      FitAtLeast(c, flags, code, keys, sigs, n, m, a, j - 1);
      assert Finds(c, flags, code, keys, sigs[j - 1], a[j - 1], Bound(a, n, j - 1));
    }
  }

  /** The pass over the reversed lists succeeds exactly when the signatures fit. */
  lemma {:induction false} PassIffFits(c: Checker, flags: Flags, code: seq<ParsedOp>, keys: seq<Bytes>, sigs: seq<Bytes>, n: nat, m: nat)
    requires m <= n <= |keys| && m <= |sigs| && |sigs| - m <= |keys| - n
    ensures var t := TallyFrom(c, flags, code, Rev(keys), Rev(sigs), |keys| - n, |sigs| - m);
      t.Counted? && t.success <==> Fits(c, flags, code, keys, sigs, n, m)
    decreases n
  {
    hide PairError, WellFormedPair, Fits, LastFit;
    if m == 0 {
      assert Fits(c, flags, code, keys, sigs, n, m) by { FitsNone(c, flags, code, keys, sigs, n); }
    } else {
      var sig, key := sigs[m - 1], keys[n - 1];
      assert Rev(sigs)[|sigs| - m] == sig && Rev(keys)[|keys| - n] == key;
      PairErrorIff(c, sig, key, flags);
      var answer := CheckSig(c, sig, key, code, flags);
      if PairError(c, sig, key, flags).Some? || answer.Failure? {
        FitsBroken(c, flags, code, keys, sigs, n, m);
      } else if answer.value {
        FitsTaken(c, flags, code, keys, sigs, n, m);
        PassIffFits(c, flags, code, keys, sigs, n - 1, m - 1);
      } else {
        FitsSkipped(c, flags, code, keys, sigs, n, m);
        if m > n - 1 {
          FitsNowhere(c, flags, code, keys, sigs, n - 1, m);
        } else {
          PassIffFits(c, flags, code, keys, sigs, n - 1, m);
        }
      }
    }
  }

  lemma {:induction false} FitsNone(c: Checker, flags: Flags, code: seq<ParsedOp>, keys: seq<Bytes>, sigs: seq<Bytes>, n: nat)
    ensures Fits(c, flags, code, keys, sigs, n, 0)
  {
    assert LastFit(c, flags, code, keys, sigs, n, 0, []);
  }

  /* When no pair is bad, the order of trying does not matter */

  ghost predicate NoBadPair(c: Checker, flags: Flags, code: seq<ParsedOp>, keys: seq<Bytes>, sigs: seq<Bytes>) {
    forall i, j :: 0 <= i < |sigs| && 0 <= j < |keys| ==>
      WellFormedPair(c, sigs[i], keys[j], flags) && Asked(c, flags, sigs[i], keys[j], code).Success?
  }

  function Mirror(a: seq<nat>, n: nat): (r: seq<nat>)
    requires forall j :: 0 <= j < |a| ==> a[j] < n
    ensures |r| == |a| && forall j :: 0 <= j < |a| ==> r[j] == n - 1 - a[|a| - 1 - j]
  {
    seq(|a|, j requires 0 <= j < |a| => n - 1 - a[|a| - 1 - j])
  }

  lemma {:induction false} MatchingMirrored(c: Checker, flags: Flags, code: seq<ParsedOp>, keys: seq<Bytes>, sigs: seq<Bytes>)
    requires CanMatch(c, flags, code, keys, sigs, 0, 0)
    ensures CanMatch(c, flags, code, Rev(keys), Rev(sigs), 0, 0)
  {
    hide Signs;
    var a: seq<nat> :| Matching(c, flags, code, keys, sigs, 0, 0, a);
    var b := Mirror(a, |keys|);
    forall j | 0 <= j < |b|
      ensures Signs(c, flags, code, Rev(sigs)[0 + j], Rev(keys)[b[j]])
    {
      var k := |a| - 1 - j;
      assert Signs(c, flags, code, sigs[0 + k], keys[a[k]]);
    }
    assert Matching(c, flags, code, Rev(keys), Rev(sigs), 0, 0, b);
  }

  /** Matching from the top of the stack down is matching in the order of the script. */
  lemma {:induction false} MatchingEitherWay(c: Checker, flags: Flags, code: seq<ParsedOp>, keys: seq<Bytes>, sigs: seq<Bytes>)
    ensures CanMatch(c, flags, code, Rev(keys), Rev(sigs), 0, 0) <==> CanMatch(c, flags, code, keys, sigs, 0, 0)
  {
    hide CanMatch;
    assert Rev(Rev(keys)) == keys && Rev(Rev(sigs)) == sigs;
    if CanMatch(c, flags, code, keys, sigs, 0, 0) {
      MatchingMirrored(c, flags, code, keys, sigs);
    }
    if CanMatch(c, flags, code, Rev(keys), Rev(sigs), 0, 0) {
      MatchingMirrored(c, flags, code, Rev(keys), Rev(sigs));
    }
  }

  /** Without a bad pair the pass is not stopped. */
  lemma {:induction false} PassCounts(c: Checker, flags: Flags, code: seq<ParsedOp>, keys: seq<Bytes>, sigs: seq<Bytes>, k: nat, s: nat)
    requires k <= |keys| && s <= |sigs| && |sigs| - s <= |keys| - k && NoBadPair(c, flags, code, keys, sigs)
    ensures TallyFrom(c, flags, code, Rev(keys), Rev(sigs), k, s).Counted?
    decreases |keys| - k
  {
    hide PairError, WellFormedPair;
    if s < |sigs| {
      var sig, key := Rev(sigs)[s], Rev(keys)[k];
      assert sig == sigs[|sigs| - 1 - s] && key == keys[|keys| - 1 - k];
      PairErrorIff(c, sig, key, flags);
      var left := if CheckSig(c, sig, key, code, flags).value then s + 1 else s;
      if |sigs| - left <= |keys| - (k + 1) {
        PassCounts(c, flags, code, keys, sigs, k + 1, left);
      }
    }
  }

  /** Signatures that fit can be matched; without a bad pair the two are the same. */
  lemma {:induction false} FitsIffMatching(c: Checker, flags: Flags, code: seq<ParsedOp>, keys: seq<Bytes>, sigs: seq<Bytes>)
    requires |sigs| <= |keys|
    ensures Fits(c, flags, code, keys, sigs, |keys|, |sigs|) ==> CanMatch(c, flags, code, keys, sigs, 0, 0)
    ensures NoBadPair(c, flags, code, keys, sigs) ==>
      (Fits(c, flags, code, keys, sigs, |keys|, |sigs|) <==> CanMatch(c, flags, code, keys, sigs, 0, 0))
  {
    hide TallyFrom, Fits, CanMatch, NoBadPair;
    if NoBadPair(c, flags, code, keys, sigs) {
      PassCounts(c, flags, code, keys, sigs, 0, 0);
    }
    PassIffFits(c, flags, code, keys, sigs, |keys|, |sigs|);
    if TallyFrom(c, flags, code, Rev(keys), Rev(sigs), 0, 0).Counted? {
      SuccessIsMatching(c, flags, code, Rev(keys), Rev(sigs), 0, 0);
    }
    MatchingEitherWay(c, flags, code, keys, sigs);
  }

  /** Being matched is not enough: a malformed last key spoils a signature that is good for the first. */
  lemma {:induction false} BadKeySpoils(c: Checker, flags: Flags, code: seq<ParsedOp>, sig: Bytes, good: Bytes, bad: Bytes)
    requires Asked(c, flags, sig, good, code) == Success(true) && !WellFormedKey(c, bad, flags)
    ensures CanMatch(c, flags, code, [good, bad], [sig], 0, 0) && !Fits(c, flags, code, [good, bad], [sig], 2, 1)
  {
    assert Matching(c, flags, code, [good, bad], [sig], 0, 0, [0]);
    FitsBroken(c, flags, code, [good, bad], [sig], 2, 1);
  }

  /* The multisignature opcodes */

  datatype Operands = Operands(base: Stack, dummy: Bytes, sigs: seq<Bytes>, m: Bytes, keys: seq<Bytes>, n: Bytes)

  /** The stack ends with a dummy value, the signatures, their number, the keys and their number. */
  predicate EndsWith(s: Stack, a: Operands, flags: Flags) {
    s == a.base + [a.dummy] + a.sigs + [a.m] + a.keys + [a.n] && |a.sigs| <= |a.keys| <= 20 &&
    IsNumber(a.m, flags, 4) && Value(a.m) == |a.sigs| && IsNumber(a.n, flags, 4) && Value(a.n) == |a.keys|
  }

  /** The middle part of a stack, read from the top. */
  lemma {:induction false} ReadDownwards(below: Stack, s: Stack, above: Stack)
    ensures var all := below + s + above;
      seq(|s|, k requires 0 <= k < |s| => Top(all, |above| + 1 + k)) == Rev(s)
  {
    var all := below + s + above;
    forall k | 0 <= k < |s|
      ensures Top(all, |above| + 1 + k) == Rev(s)[k]
    {
      assert all[|below| + (|s| - 1 - k)] == s[|s| - 1 - k];
    }
  }

  lemma {:induction false} ReadUpwards(all: Stack, above: nat, r: Stack)
    requires above + |r| <= |all| && forall k :: 0 <= k < |r| ==> r[k] == all[|all| - above - 1 - k]
    ensures Rev(r) == all[|all| - above - |r|..|all| - above]
  {
    forall k | 0 <= k < |r|
      ensures Rev(r)[k] == all[|all| - above - |r| + k]
    {
      assert r[|r| - 1 - k] == all[|all| - above - 1 - (|r| - 1 - k)];
    }
  }

  lemma {:induction false} OperandsAreRead(s: Stack, flags: Flags, opCount: nat, a: Operands)
    requires EndsWith(s, a, flags)
    ensures ReadMultisig(s, MinimalData in flags, opCount) ==
      if opCount + |a.keys| > 201 then Failure(OpCount)
      else Success(MultisigArgs(Rev(a.keys), Rev(a.sigs), a.dummy, a.base, opCount + |a.keys|))
  {
    hide IsNumber, Value, Num, Rev;
    NumIff(a.n, flags, 4);
    NumIff(a.m, flags, 4);
    var n, m := |a.keys|, |a.sigs|;
    assert Top(s, 1) == a.n && Top(s, n + 2) == a.m && Top(s, n + m + 3) == a.dummy && Drop(s, n + m + 3) == a.base;
    ReadDownwards(a.base + [a.dummy] + a.sigs + [a.m], a.keys, [a.n]);
    assert seq(n, k requires 0 <= k < n => Top(s, 2 + k)) == Rev(a.keys);
    assert s == (a.base + [a.dummy]) + a.sigs + ([a.m] + a.keys + [a.n]);
    ReadDownwards(a.base + [a.dummy], a.sigs, [a.m] + a.keys + [a.n]);
    assert seq(m, k requires 0 <= k < m => Top(s, n + 3 + k)) == Rev(a.sigs);
  }

  /** The operands that were read. */
  function OperandsOf(s: Stack, a: MultisigArgs): Operands
    requires |a.keys| + 2 <= |s|
  {
    Operands(a.rest, a.dummy, Rev(a.sigs), Top(s, |a.keys| + 2), Rev(a.keys), Top(s, 1))
  }

  /** Where on the stack the operands were read. */
  lemma {:induction false} OperandPlaces(s: Stack, flags: Flags, opCount: nat)
    requires ReadMultisig(s, MinimalData in flags, opCount).Success?
    ensures var a := ReadMultisig(s, MinimalData in flags, opCount).value;
      var n, m := |a.keys|, |a.sigs|;
      m <= n <= 20 && opCount + n <= 201 && n + m + 3 <= |s| &&
      Num(Top(s, 1), MinimalData in flags, 4) == Some(n) && Num(Top(s, n + 2), MinimalData in flags, 4) == Some(m) &&
      a.dummy == Top(s, n + m + 3) && a.rest == Drop(s, n + m + 3) &&
      (forall k :: 0 <= k < n ==> a.keys[k] == s[|s| - 1 - 1 - k]) &&
      (forall k :: 0 <= k < m ==> a.sigs[k] == s[|s| - (n + 2) - 1 - k])
  {
    hide Num;
    var a := ReadMultisig(s, MinimalData in flags, opCount).value;
    var n := Num(Top(s, 1), MinimalData in flags, 4).value;
    var m := Num(Top(s, n + 2), MinimalData in flags, 4).value;
    assert n == |a.keys| && m == |a.sigs|;
    assert forall k :: 0 <= k < m ==> a.sigs[k] == Top(s, n + 3 + k);
  }

  lemma {:induction false} OperandsWereThere(s: Stack, flags: Flags, opCount: nat)
    requires ReadMultisig(s, MinimalData in flags, opCount).Success?
    ensures var a := ReadMultisig(s, MinimalData in flags, opCount).value;
      |a.keys| + 2 <= |s| && EndsWith(s, OperandsOf(s, a), flags) && opCount + |a.keys| <= 201
  {
    hide ReadMultisig, IsNumber, Value, Num, Rev;
    OperandPlaces(s, flags, opCount);
    var a := ReadMultisig(s, MinimalData in flags, opCount).value;
    var n, m := |a.keys|, |a.sigs|;
    NumIff(Top(s, 1), flags, 4);
    NumIff(Top(s, n + 2), flags, 4);
    var p := |a.rest|;
    ReadUpwards(s, n + 2, a.sigs);
    ReadUpwards(s, 1, a.keys);
    assert s == s[..p] + [s[p]] + s[p + 1..p + 1 + m] + [s[p + 1 + m]] + s[p + m + 2..p + m + 2 + n] + [s[|s| - 1]];
  }

  /** A multisignature opcode runs only on such operands, and they count as opcodes. */
  lemma {:induction false} MultisigNeeds(op: Byte, ops: seq<ParsedOp>, i: nat, c: Checker, flags: Flags, st: State, o: Outcome)
    requires Ran(op, ops, i, c, flags, st, o) && IsMultisig(op) && o.Running?
    ensures exists a :: EndsWith(st.stack, a, flags) && st.opCount + |a.keys| <= 201
  {
    hide ReadMultisig, TallyFrom, FinishMultisig, RemoveAll, EndsWith;
    OperandsWereThere(st.stack, flags, st.opCount);
    var args := ReadMultisig(st.stack, MinimalData in flags, st.opCount).value;
    assert EndsWith(st.stack, OperandsOf(st.stack, args), flags);
  }

  /** What is wrong with the operands, from the top of the stack down. */
  lemma {:induction false} MultisigRefuses(op: Byte, ops: seq<ParsedOp>, i: nat, c: Checker, flags: Flags, st: State, o: Outcome,
      under: Stack, top: Bytes)
    requires Ran(op, ops, i, c, flags, st, o) && IsMultisig(op) && st.stack == under + [top]
    ensures !IsNumber(top, flags, 4) ==> Fails(o, st, BadNumber)
    ensures IsNumber(top, flags, 4) && !(0 <= Value(top) <= 20) ==> Fails(o, st, PubKeyCount)
    ensures IsNumber(top, flags, 4) && 0 <= Value(top) <= 20 ==>
      if st.opCount + Value(top) > 201 then Fails(o, st, OpCount)
      else if |under| <= Value(top) then Fails(o, st, InvalidStackOperation)
      else
        var sigs := Top(under, Value(top) + 1);
        if !IsNumber(sigs, flags, 4) then Fails(o, st, BadNumber)
        else if !(0 <= Value(sigs) <= Value(top)) then Fails(o, st, SigCount)
        else |under| <= Value(top) + Value(sigs) + 1 ==> Fails(o, st, InvalidStackOperation)
  {
    hide TallyFrom, FinishMultisig, RemoveAll, IsMinimallyEncoded, Value, ControlOp, PlainOp;
    NumIff(top, flags, 4);
    if IsNumber(top, flags, 4) && 0 <= Value(top) < |under| {
      NumIff(Top(under, Value(top) + 1), flags, 4);
    }
  }

  /** The result of the opcode, for operands that leave room in the opcode count. */
  lemma {:induction false} MultisigChecked(op: Byte, ops: seq<ParsedOp>, i: nat, c: Checker, flags: Flags, st: State, o: Outcome,
      a: Operands)
    requires Ran(op, ops, i, c, flags, st, o) && IsMultisig(op) && EndsWith(st.stack, a, flags)
    requires st.opCount + |a.keys| <= 201 && st.begin <= |ops|
    ensures var code := Without(ops[st.begin..], Elements(a.sigs));
      var fits := Fits(c, flags, code, a.keys, a.sigs, |a.keys|, |a.sigs|);
      var dummyOk := NullDummy in flags ==> a.dummy == [];
      var mayFail := forall j :: 0 <= j < |a.sigs| ==> MayFail(a.sigs[j], flags);
      (fits && dummyOk ==> o.Running?) && (fits && !dummyOk ==> o.Failed? && o.error == SigNullDummy) &&
      (NoBadPair(c, flags, code, a.keys, a.sigs) && dummyOk && mayFail && op == OP_CHECKMULTISIG ==> o.Running?) &&
      (o.Running? ==>
         dummyOk && st.checks <= o.state.checks <= st.checks + |a.keys| &&
         (fits || mayFail) &&
         (!fits ==> op == OP_CHECKMULTISIG && !CanMatch(c, flags, code, a.keys, a.sigs, 0, 0)) &&
         var next := st.(checks := o.state.checks, opCount := st.opCount + |a.keys|);
         if op == OP_CHECKMULTISIG then LeavesBool(o, next, a.base, fits) else Leaves(o, next, a.base))
  {
    hide ReadMultisig, TallyFrom, FinishMultisig, RemoveAll, EndsWith, Without, Fits, CanMatch, NoBadPair, ControlOp,
         PlainOp;
    OperandsAreRead(st.stack, flags, st.opCount, a);
    var code := Without(ops[st.begin..], Elements(a.sigs));
    assert Elements(Rev(a.sigs)) == Elements(a.sigs) by { RevElements(a.sigs); }
    RemovedAll(ops[st.begin..], Rev(a.sigs));
    var args := MultisigArgs(Rev(a.keys), Rev(a.sigs), a.dummy, a.base, st.opCount + |a.keys|);
    var t := TallyFrom(c, flags, code, Rev(a.keys), Rev(a.sigs), 0, 0);
    assert o == FinishMultisig(op, args, t, flags, st);
    PassIffFits(c, flags, code, a.keys, a.sigs, |a.keys|, |a.sigs|);
    OneCheckPerKey(c, flags, code, Rev(a.keys), Rev(a.sigs), 0, 0);
    Finished(op, args, t, flags, st, a.sigs);
    if NoBadPair(c, flags, code, a.keys, a.sigs) {
      PassCounts(c, flags, code, a.keys, a.sigs, 0, 0);
    }
    if t.Counted? {
      SuccessIsMatching(c, flags, code, Rev(a.keys), Rev(a.sigs), 0, 0);
      MatchingEitherWay(c, flags, code, a.keys, a.sigs);
    }
  }

  lemma {:induction false} RevElements(s: seq<Bytes>)
    ensures Elements(Rev(s)) == Elements(s)
  {
    forall i | 0 <= i < |s|
      ensures s[i] in Rev(s)
    {
      assert Rev(s)[|s| - 1 - i] == s[i];
    }
  }

  lemma {:induction false} Finished(op: Byte, a: MultisigArgs, t: Tally, flags: Flags, st: State, sigs: seq<Bytes>)
    requires IsMultisig(op) && a.sigs == Rev(sigs)
    ensures var o := FinishMultisig(op, a, t, flags, st);
      var next := st.(checks := st.checks + t.checks, opCount := a.opCount);
      var dummyOk := NullDummy in flags ==> a.dummy == [];
      (o.Running? ==>
         t.Counted? && dummyOk && (t.success || forall j :: 0 <= j < |sigs| ==> MayFail(sigs[j], flags)) &&
         (if op == OP_CHECKMULTISIG then LeavesBool(o, next, a.rest, t.success) else t.success && Leaves(o, next, a.rest))) &&
      (t.Counted? && t.success ==> if dummyOk then o.Running? else o == Failed(SigNullDummy, next.checks)) &&
      (t.Counted? && dummyOk && op == OP_CHECKMULTISIG && (forall j :: 0 <= j < |sigs| ==> MayFail(sigs[j], flags)) ==> o.Running?)
  {
    var o := FinishMultisig(op, a, t, flags, st);
    assert forall j :: 0 <= j < |sigs| ==> a.sigs[j] == sigs[|sigs| - 1 - j];
    if o.Running? && !t.success {
      forall j | 0 <= j < |sigs|
        ensures MayFail(sigs[j], flags)
      {
        assert a.sigs[|sigs| - 1 - j] == sigs[j];
      }
    }
  }
}
