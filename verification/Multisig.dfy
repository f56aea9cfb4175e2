/** CHECKMULTISIG: signatures are tried against public keys in one pass (logic/lscript/lscript.go). */
module Multisig {
  import opened Wrappers
  import opened Basics
  import opened ScriptNum
  import opened ScriptOps
  import opened ScriptFlags

  /** Everything the interpreter asks of the transaction and of cryptography. */
  datatype Checker = Checker(
    checkSig: (Bytes, Bytes, seq<ParsedOp>, bool, bool) -> Result<bool, ScriptError>,
    verifyData: (Bytes, Bytes, Bytes) -> bool,
    lockTimeOk: int -> bool,
    sequenceOk: int -> bool,
    isValidSignature: Bytes -> bool,
    isLowS: Bytes -> bool,
    hasDefinedHashType: Bytes -> bool,
    usesForkId: Bytes -> bool,
    isPubKey: Bytes -> bool,
    isCompressedPubKey: Bytes -> bool,
    hash: (Byte, Bytes) -> Bytes)

  /* Encodings */

  function RawSignatureError(c: Checker, sig: Bytes, flags: Flags): Option<ScriptError> {
    if (Dersig in flags || LowS in flags || StrictEnc in flags) && !c.isValidSignature(sig) then Some(SigDer)
    else if LowS in flags && !c.isLowS(sig) then Some(SigHighS)
    else None
  }

  /** CheckTransactionSignatureEncoding; an empty signature is allowed everywhere. */
  function SignatureError(c: Checker, sig: Bytes, flags: Flags): Option<ScriptError> {
    if sig == [] then None
    else
      var raw := RawSignatureError(c, sig[..|sig| - 1], flags);
      if raw.Some? then raw
      else if StrictEnc !in flags then None
      else if !c.hasDefinedHashType(sig) then Some(SigHashType)
      else if SigHashForkID !in flags && c.usesForkId(sig) then Some(IllegalForkId)
      else if SigHashForkID in flags && !c.usesForkId(sig) then Some(MustUseForkId)
      else None
  }

  function DataSignatureError(c: Checker, sig: Bytes, flags: Flags): Option<ScriptError> {
    if sig == [] then None else RawSignatureError(c, sig, flags)
  }

  function PubKeyError(c: Checker, key: Bytes, flags: Flags): Option<ScriptError> {
    if StrictEnc in flags && !c.isPubKey(key) then Some(PubKeyType)
    else if CompressedPubkeyType in flags && !c.isCompressedPubKey(key) then Some(NonCompressedPubKey)
    else None
  }

  function PairError(c: Checker, sig: Bytes, key: Bytes, flags: Flags): Option<ScriptError> {
    var e := SignatureError(c, sig, flags);
    if e.Some? then e else PubKeyError(c, key, flags)
  }

  /** The signature check itself sees only two of the flags. */
  function CheckSig(c: Checker, sig: Bytes, key: Bytes, code: seq<ParsedOp>, flags: Flags): Result<bool, ScriptError> {
    c.checkSig(sig, key, code, SigHashForkID in flags, ReplayProtection in flags)
  }

  /* The pass over the keys */

  datatype Tally = Counted(success: bool, checks: nat) | Stopped(error: ScriptError, checks: nat)

  function OneMore(t: Tally): Tally { t.(checks := t.checks + 1) }

  /** The pass from key k and signature s on, both counted from the top of the stack. */
  function TallyFrom(c: Checker, flags: Flags, code: seq<ParsedOp>, keys: seq<Bytes>, sigs: seq<Bytes>, k: nat, s: nat): Tally
    requires k <= |keys| && s <= |sigs| && |sigs| - s <= |keys| - k
    decreases |keys| - k
  {
    if s == |sigs| then Counted(true, 0)
    else
      var e := PairError(c, sigs[s], keys[k], flags);
      if e.Some? then Stopped(e.value, 0)
      else
        match CheckSig(c, sigs[s], keys[k], code, flags)
        case Failure(e) => Stopped(e, 1)
        case Success(ok) =>
          var left := if ok then s + 1 else s;
          if |sigs| - left > |keys| - (k + 1) then Counted(false, 1)
          else OneMore(TallyFrom(c, flags, code, keys, sigs, k + 1, left))
  }

  /** The loop itself. */
  method CountSignatures(c: Checker, flags: Flags, code: seq<ParsedOp>, keys: seq<Bytes>, sigs: seq<Bytes>) returns (t: Tally)
    requires |sigs| <= |keys|
    ensures t == TallyFrom(c, flags, code, keys, sigs, 0, 0)
  {
    var success, iSig, iPubKey, checks := true, 0, 0, 0;
    while success && iSig < |sigs|
      invariant iSig <= |sigs| && iPubKey <= |keys| && checks == iPubKey
      invariant success ==> |sigs| - iSig <= |keys| - iPubKey
      invariant success ==> TallyFrom(c, flags, code, keys, sigs, 0, 0) ==
                            Plus(TallyFrom(c, flags, code, keys, sigs, iPubKey, iSig), checks)
      invariant !success ==> TallyFrom(c, flags, code, keys, sigs, 0, 0) == Counted(false, checks)
      decreases |keys| - iPubKey, success
    {
      var e := PairError(c, sigs[iSig], keys[iPubKey], flags);
      if e.Some? {
        return Stopped(e.value, checks);
      }
      var ok := CheckSig(c, sigs[iSig], keys[iPubKey], code, flags);
      checks := checks + 1;
      if ok.Failure? {
        return Stopped(ok.error, checks);
      }
      if ok.value {
        iSig := iSig + 1;
      }
      iPubKey := iPubKey + 1;
      if |sigs| - iSig > |keys| - iPubKey {
        success := false;
      }
    }
    t := Counted(success, checks);
  }

  ghost function Plus(t: Tally, n: nat): Tally { t.(checks := t.checks + n) }

  /** At most one check per key. */
  lemma {:induction false} OneCheckPerKey(c: Checker, flags: Flags, code: seq<ParsedOp>, keys: seq<Bytes>,
      sigs: seq<Bytes>, k: nat, s: nat)
    requires k <= |keys| && s <= |sigs| && |sigs| - s <= |keys| - k
    ensures TallyFrom(c, flags, code, keys, sigs, k, s).checks <= |keys| - k
    decreases |keys| - k
  {
    hide PairError, CheckSig;
    if s < |sigs| && PairError(c, sigs[s], keys[k], flags).None? {
      var r := CheckSig(c, sigs[s], keys[k], code, flags);
      if r.Success? {
        var left := if r.value then s + 1 else s;
        if |sigs| - left <= |keys| - (k + 1) {
          OneCheckPerKey(c, flags, code, keys, sigs, k + 1, left);
        }
      }
    }
  }

  /* What success means */

  ghost predicate Signs(c: Checker, flags: Flags, code: seq<ParsedOp>, sig: Bytes, key: Bytes) {
    CheckSig(c, sig, key, code, flags) == Success(true)
  }

  /** a assigns to every signature from s on a later key from k on that it signs for, in strictly increasing order. */
  ghost predicate Matching(c: Checker, flags: Flags, code: seq<ParsedOp>, keys: seq<Bytes>, sigs: seq<Bytes>, k: nat, s: nat, a: seq<nat>)
    requires s <= |sigs|
  {
    |a| == |sigs| - s &&
    (forall j :: 0 <= j < |a| ==> k <= a[j] < |keys| && Signs(c, flags, code, sigs[s + j], keys[a[j]])) &&
    (forall i, j :: 0 <= i < j < |a| ==> a[i] < a[j])
  }

  ghost predicate CanMatch(c: Checker, flags: Flags, code: seq<ParsedOp>, keys: seq<Bytes>, sigs: seq<Bytes>, k: nat, s: nat)
    requires s <= |sigs|
  {
    exists a :: Matching(c, flags, code, keys, sigs, k, s, a)
  }

  lemma {:induction false} MatchingFits(c: Checker, flags: Flags, code: seq<ParsedOp>, keys: seq<Bytes>,
      sigs: seq<Bytes>, k: nat, s: nat, a: seq<nat>, j: nat)
    requires k <= |keys| && s <= |sigs| && Matching(c, flags, code, keys, sigs, k, s, a) && j < |a|
    ensures a[j] >= k + j
  {
    if j > 0 {
      MatchingFits(c, flags, code, keys, sigs, k, s, a, j - 1);
    }
  }

  /** More signatures than keys cannot be matched. */
  lemma {:induction false} TooFewKeys(c: Checker, flags: Flags, code: seq<ParsedOp>, keys: seq<Bytes>,
      sigs: seq<Bytes>, k: nat, s: nat)
    requires k <= |keys| && s <= |sigs| && |sigs| - s > |keys| - k
    ensures !CanMatch(c, flags, code, keys, sigs, k, s)
  {
    forall a | |a| == |sigs| - s
      ensures !Matching(c, flags, code, keys, sigs, k, s, a)
    {
      if Matching(c, flags, code, keys, sigs, k, s, a) {
        MatchingFits(c, flags, code, keys, sigs, k, s, a, |a| - 1);
      }
    }
  }

  /** If the signature signs for the key, it may as well take it. */
  lemma {:induction false} TakeTheKey(c: Checker, flags: Flags, code: seq<ParsedOp>, keys: seq<Bytes>,
      sigs: seq<Bytes>, k: nat, s: nat)
    requires k < |keys| && s < |sigs| && Signs(c, flags, code, sigs[s], keys[k])
    ensures CanMatch(c, flags, code, keys, sigs, k, s) <==> CanMatch(c, flags, code, keys, sigs, k + 1, s + 1)
  {
    hide Signs;
    if CanMatch(c, flags, code, keys, sigs, k, s) {
      var a :| Matching(c, flags, code, keys, sigs, k, s, a);
      assert a[0] >= k;
      var b := a[1..];
      assert forall j :: 0 <= j < |b| ==> b[j] == a[j + 1] && sigs[s + (j + 1)] == sigs[s + 1 + j];
      assert Matching(c, flags, code, keys, sigs, k + 1, s + 1, b);
    }
    if CanMatch(c, flags, code, keys, sigs, k + 1, s + 1) {
      var a :| Matching(c, flags, code, keys, sigs, k + 1, s + 1, a);
      var b := [k] + a;
      assert forall j :: 0 < j < |b| ==> b[j] == a[j - 1] && sigs[s + 1 + (j - 1)] == sigs[s + j];
      assert Matching(c, flags, code, keys, sigs, k, s, b);
    }
  }

  /** If it does not, the key is of no use to any signature. */
  lemma {:induction false} SkipTheKey(c: Checker, flags: Flags, code: seq<ParsedOp>, keys: seq<Bytes>,
      sigs: seq<Bytes>, k: nat, s: nat)
    requires k < |keys| && s < |sigs| && !Signs(c, flags, code, sigs[s], keys[k])
    ensures CanMatch(c, flags, code, keys, sigs, k, s) <==> CanMatch(c, flags, code, keys, sigs, k + 1, s)
  {
    hide Signs;
    if CanMatch(c, flags, code, keys, sigs, k, s) {
      var a :| Matching(c, flags, code, keys, sigs, k, s, a);
      assert a[0] != k by {
        assert Signs(c, flags, code, sigs[s + 0], keys[a[0]]);
      }
      assert Matching(c, flags, code, keys, sigs, k + 1, s, a);
    }
    if CanMatch(c, flags, code, keys, sigs, k + 1, s) {
      var a :| Matching(c, flags, code, keys, sigs, k + 1, s, a);
      assert Matching(c, flags, code, keys, sigs, k, s, a);
    }
  }

  lemma {:induction false} NothingToMatch(c: Checker, flags: Flags, code: seq<ParsedOp>, keys: seq<Bytes>,
      sigs: seq<Bytes>, k: nat)
    ensures CanMatch(c, flags, code, keys, sigs, k, |sigs|)
  {
    assert Matching(c, flags, code, keys, sigs, k, |sigs|, []);
  }

  /** The pass succeeds exactly when the signatures can be matched to keys in order. */
  lemma {:induction false} SuccessIsMatching(c: Checker, flags: Flags, code: seq<ParsedOp>, keys: seq<Bytes>,
      sigs: seq<Bytes>, k: nat, s: nat)
    requires k <= |keys| && s <= |sigs| && |sigs| - s <= |keys| - k
    requires TallyFrom(c, flags, code, keys, sigs, k, s).Counted?
    ensures TallyFrom(c, flags, code, keys, sigs, k, s).success <==> CanMatch(c, flags, code, keys, sigs, k, s)
    decreases |keys| - k
  {
    hide PairError, CanMatch;
    if s == |sigs| {
      NothingToMatch(c, flags, code, keys, sigs, k);
    } else {
      var ok := CheckSig(c, sigs[s], keys[k], code, flags).value;
      var left := if ok then s + 1 else s;
      if ok {
        TakeTheKey(c, flags, code, keys, sigs, k, s);
      } else {
        SkipTheKey(c, flags, code, keys, sigs, k, s);
      }
      if |sigs| - left > |keys| - (k + 1) {
        TooFewKeys(c, flags, code, keys, sigs, k + 1, left);
      } else {
        SuccessIsMatching(c, flags, code, keys, sigs, k + 1, left);
      }
    }
  }
}
