/** The script verification flags of model/script, as members of a set instead of bits of a word. */
module ScriptFlags {
  datatype Flag =
    | P2SH | StrictEnc | Dersig | LowS | NullDummy | SigPushOnly | MinimalData | DiscourageUpgradableNops | CleanStack
    | CheckLockTimeVerify | CheckSequenceVerify | MinimalIf | NullFail | CompressedPubkeyType | SigHashForkID
    | ReplayProtection | CheckDataSig

  type Flags = set<Flag>

  const MANDATORY: Flags := {P2SH, StrictEnc, SigHashForkID, LowS, NullFail}

  const STANDARD: Flags :=
    MANDATORY + {Dersig, LowS, NullDummy, SigPushOnly, MinimalData, DiscourageUpgradableNops, CleanStack,
                 CheckLockTimeVerify, CheckSequenceVerify, NullFail}

  const STANDARD_NOT_MANDATORY: Flags := STANDARD - MANDATORY
}
