/** The constant-space root and branch calculator of logic/lmerkleroot. */
module MerkleRoot {
  import opened Bits
  import opened MerkleSpec
  import opened MerkleMalleability

  /** Slots of the carry array, one per bit of the 32-bit leaf counter. */
  const SLOTS: nat := 32
  /** The most leaves for which the counter does not wrap; see CountOnly. */
  const MAX_LEAVES: nat := Pow2(31)

  /** Slot L holds the hash of the last complete subtree of 2^L leaves for every bit L set in c. */
  ghost predicate Carried<T>(hash: (T, T) -> T, s: seq<T>, inner: seq<T>, c: nat) {
    |inner| == SLOTS &&
    forall l: nat {:trigger Bit(c, l)} :: l < SLOTS && Bit(c, l) ==> IsNode(hash, s, l, Shr(c, l) - 1, inner[l])
  }

  /** Where the subtree containing leaf pos is carried, and the branch collected for it so far. */
  ghost predicate Tracked<T>(hash: (T, T) -> T, s: seq<T>, pos: nat, c: nat, matchLevel: int, branch: seq<T>) {
    if pos < c && pos < |s| then
      0 <= matchLevel < SLOTS && Bit(c, matchLevel) &&
      Shr(pos, matchLevel) == Shr(c, matchLevel) - 1 && branch == BranchTo(hash, s, pos, matchLevel)
    else
      matchLevel == -1 && branch == []
  }

  /** A counter within range has its blocks below slot 32. */
  lemma {:induction false} LevelInRange(c: nat, l: nat)
    requires c <= MAX_LEAVES && Shr(c, l) > 0
    ensures l < SLOTS
  {
    ShrZero(c, l);
    if l >= SLOTS {
      Pow2Monotone(SLOTS, l);
    }
  }

  /** Below 2^(k+1), a count rounded up to whole nodes of 2^k stays there exactly when one node is enough. */
  lemma {:induction false} CounterLimit(n: nat, k: nat)
    requires 0 < n < Pow2(k + 1)
    ensures Width(n, k) * Pow2(k) < Pow2(k + 1) <==> n <= Pow2(k)
  {
    var w := Width(n, k);
    WidthIsShr(n, k);
    ShrZero(n, k);
    ShrZero(n, k + 1);
    Pow2Monotone(k, k);
    if Ragged(n, k) { PowerAligned(k); } else { OneBlock(n, k); }
    assert w <= 1 || w == 2;
  }

  /** Storing the merged node in its slot turns the array for c into the array for c + 1. */
  lemma {:induction false} CarryStored<T>(hash: (T, T) -> T, s: seq<T>, inner: seq<T>, c: nat, level: nat, h: T)
    requires Carried(hash, s, inner, c)
    requires level < SLOTS && !Ragged(c + 1, level) && Bit(c + 1, level)
    requires IsNode(hash, s, level, Shr(c + 1, level) - 1, h)
    ensures Carried(hash, s, inner[level := h], c + 1)
  {
    hide IsNode, Level, Width, Pow2;
    var next := c + 1;
    forall l: nat | l < SLOTS && Bit(next, l)
      ensures IsNode(hash, s, l, Shr(next, l) - 1, inner[level := h][l])
    {
      if l < level {
        RaggedMonotone(next, l + 1, level);
      } else if l > level {
        RaggedMonotone(next, level + 1, l);
        ShrIncrement(c, l);
        assert Bit(c, l);
      }
    }
  }

  /** Below level, the merge chain of leaf number c combined two equal nodes. */
  ghost predicate NewPairBelow<T>(hash: (T, T) -> T, s: seq<T>, c: nat, level: nat) {
    level > 0 &&
    (NewPairBelow(hash, s, c, level - 1) || EqualPair(hash, s, level - 1, Shr(c, level - 1) / 2 - 1))
  }

  lemma {:induction false} NewPairIsComplete<T>(hash: (T, T) -> T, s: seq<T>, c: nat, level: nat)
    requires NewPairBelow(hash, s, c, level)
    ensures MutatedUpTo(hash, s, c)
  {
    if NewPairBelow(hash, s, c, level - 1) {
      NewPairIsComplete(hash, s, c, level - 1);
    } else {
      var j := Shr(c, level - 1) / 2 - 1;
      assert EqualPair(hash, s, level - 1, j) && 2 * j + 1 < Shr(c, level - 1);
    }
  }

  lemma {:induction false} NewPairFound<T>(hash: (T, T) -> T, s: seq<T>, c: nat, level: nat, l: nat)
    requires l < level && EqualPair(hash, s, l, Shr(c, l) / 2 - 1)
    ensures NewPairBelow(hash, s, c, level)
  {
    if l < level - 1 {
      NewPairFound(hash, s, c, level - 1, l);
    }
  }

  /** A pair complete among c + 1 leaves but not among c was completed by the merge chain. */
  lemma {:induction false} PairIsNew(c: nat, level: nat, h: nat, j: nat)
    requires !Ragged(c + 1, level) && Bit(c + 1, level)
    requires Shr(c, h) <= 2 * j + 1 < Shr(c + 1, h)
    ensures h < level && j == Shr(c + 1, h) / 2 - 1
  {
    ShrIncrement(c, h);
    if h > level {
      RaggedMonotone(c + 1, level + 1, h);
    }
  }

  lemma {:induction false} MutatedGrows<T>(hash: (T, T) -> T, s: seq<T>, c: nat)
    requires MutatedUpTo(hash, s, c)
    ensures MutatedUpTo(hash, s, c + 1)
  {
    var h: nat, j: nat :| EqualPair(hash, s, h, j) && 2 * j + 1 < Shr(c, h);
    ShrMonotone(c, c + 1, h);
  }

  /** The complete pairs among c + 1 leaves are those among c leaves and those the merge chain completed. */
  lemma {:induction false} MutatedIncrement<T>(hash: (T, T) -> T, s: seq<T>, c: nat, level: nat)
    requires !Ragged(c + 1, level) && Bit(c + 1, level)
    ensures MutatedUpTo(hash, s, c + 1) <==> MutatedUpTo(hash, s, c) || NewPairBelow(hash, s, c + 1, level)
  {
    if MutatedUpTo(hash, s, c + 1) && !MutatedUpTo(hash, s, c) {
      var h: nat, j: nat :| EqualPair(hash, s, h, j) && 2 * j + 1 < Shr(c + 1, h);
      PairIsNew(c, level, h, j);
      NewPairFound(hash, s, c + 1, level, h);
    }
    if MutatedUpTo(hash, s, c) {
      MutatedGrows(hash, s, c);
    }
    if NewPairBelow(hash, s, c + 1, level) {
      NewPairIsComplete(hash, s, c + 1, level);
    }
  }

  /** h is the node of the given level that ends with leaf number c. */
  ghost predicate Merging<T>(hash: (T, T) -> T, s: seq<T>, c: nat, level: nat, h: T) {
    !Ragged(c, level) && IsNode(hash, s, level, Shr(c, level) - 1, h)
  }

  /** One merge: the carried node of this level is the left sibling of h. */
  lemma {:induction false} MergeStep<T>(hash: (T, T) -> T, s: seq<T>, inner: seq<T>, c: nat, level: nat, h: T)
    requires c < |s| <= MAX_LEAVES && Carried(hash, s, inner, c)
    requires Merging(hash, s, c + 1, level, h) && !Bit(c + 1, level)
    ensures level < SLOTS && Shr(c + 1, level) >= 2
    ensures IsNode(hash, s, level, Shr(c + 1, level) - 2, inner[level])
    ensures Merging(hash, s, c + 1, level + 1, hash(inner[level], h))
    ensures NewPairBelow(hash, s, c + 1, level + 1) <==> NewPairBelow(hash, s, c + 1, level) || inner[level] == h
    ensures Shr(c + 1, level + 1) < Shr(c + 1, level)
  {
    hide ParentOf, Parents, Level, Pow2;
    AlignedIsPositive(c + 1, level);
    LevelInRange(c + 1, level);
    ShrIncrement(c, level);
    assert Bit(c, level);
    CombinePair(hash, s, level, Shr(c + 1, level) / 2 - 1, inner[level], h);
  }

  /** The branch collected while leaf number c + 1 is merged up to level. */
  ghost predicate Matching<T>(hash: (T, T) -> T, s: seq<T>, pos: nat, c: nat, level: nat,
                              matched: bool, matchLevel: int, branch: seq<T>) {
    if matched then
      pos <= c && pos < |s| && Shr(pos, level) == Shr(c + 1, level) - 1 && branch == BranchTo(hash, s, pos, level)
    else
      pos != c && Tracked(hash, s, pos, c, matchLevel, branch) && (pos < c && pos < |s| ==> matchLevel >= level)
  }

  lemma {:induction false} AbsorbStart<T>(hash: (T, T) -> T, s: seq<T>, pos: nat, c: nat, matchLevel: int,
      branch: seq<T>)
    requires c < |s|
    ensures Merging(hash, s, c + 1, 0, s[c])
    ensures !NewPairBelow(hash, s, c + 1, 0)
    ensures Tracked(hash, s, pos, c, matchLevel, branch) ==>
              Matching(hash, s, pos, c, 0, c == pos, matchLevel, branch)
  {
  }

  lemma {:induction false} MatchStep<T>(hash: (T, T) -> T, s: seq<T>, pos: nat, c: nat, level: nat,
                     matched: bool, matchLevel: int, branch: seq<T>, left: T, h: T)
    requires c < |s| && Matching(hash, s, pos, c, level, matched, matchLevel, branch)
    requires Shr(c + 1, level) >= 2 && Merging(hash, s, c + 1, level, h) && !Bit(c + 1, level)
    requires IsNode(hash, s, level, Shr(c + 1, level) - 2, left)
    ensures Matching(hash, s, pos, c, level + 1, matched || matchLevel == level, matchLevel,
                     if matched then branch + [left] else if matchLevel == level then branch + [h] else branch)
  {
    hide Level, BranchTo, Pow2, Carried;
    ShrIncrement(c, level);
    WidthIsShr(|s|, level);
    ShrMonotone(c + 1, |s|, level);
    if matched {
      ExtendBranch(hash, s, pos, level, left);
    } else if matchLevel == level {
      ExtendBranch(hash, s, pos, level, h);
    }
  }

  /** After the last merge the leaf's subtree is the stored one, or stays where it was. */
  lemma {:induction false} MatchEnd<T>(hash: (T, T) -> T, s: seq<T>, pos: nat, c: nat, level: nat,
                    matched: bool, matchLevel: int, branch: seq<T>)
    requires Matching(hash, s, pos, c, level, matched, matchLevel, branch)
    requires level < SLOTS && !Ragged(c + 1, level) && Bit(c + 1, level)
    ensures Tracked(hash, s, pos, c + 1, if matched then level else matchLevel, branch)
  {
    if !matched && pos < c && pos < |s| {
      ShrIncrement(c, level);
      ShrIncrement(c, matchLevel);
      assert matchLevel > level;
      RaggedMonotone(c + 1, level + 1, matchLevel);
    }
  }

  /** The merge chain ends at the lowest set bit, whose slot takes the merged node. */
  lemma {:induction false} AbsorbEnd<T>(hash: (T, T) -> T, s: seq<T>, inner: seq<T>, c: nat, level: nat, h: T)
    requires c < |s| <= MAX_LEAVES && Carried(hash, s, inner, c)
    requires Merging(hash, s, c + 1, level, h) && Bit(c + 1, level)
    ensures level < SLOTS && level < |inner| && !Ragged(c + 1, level)
    ensures Carried(hash, s, inner[level := h], c + 1)
    ensures MutatedUpTo(hash, s, c + 1) <==> MutatedUpTo(hash, s, c) || NewPairBelow(hash, s, c + 1, level)
  {
    AlignedIsPositive(c + 1, level);
    LevelInRange(c + 1, level);
    CarryStored(hash, s, inner, c, level, h);
    MutatedIncrement(hash, s, c, level);
  }

  /**
   Absorbs one leaf: for each low zero bit of the incremented counter, combines the carried subtree
   of that level with the current hash, and stores the result in the slot of the lowest set bit.
   */
  method AbsorbLeaf<T(==)>(hash: (T, T) -> T, leaves: seq<T>, inner: array<T>, count: nat,
                           branchPos: nat, wantBranch: bool, matchLevelIn: int, branchIn: seq<T>)
    returns (matchLevel: int, branch: seq<T>, mutated: bool)
    requires inner.Length == SLOTS
    requires count < |leaves| <= MAX_LEAVES
    requires Carried(hash, leaves, inner[..], count)
    requires wantBranch ==> Tracked(hash, leaves, branchPos, count, matchLevelIn, branchIn)
    modifies inner
    ensures Carried(hash, leaves, inner[..], count + 1)
    ensures wantBranch ==> Tracked(hash, leaves, branchPos, count + 1, matchLevel, branch)
    ensures !wantBranch ==> branch == branchIn
    ensures MutatedUpTo(hash, leaves, count + 1) <==> MutatedUpTo(hash, leaves, count) || mutated
  {
    hide *;
    var h := leaves[count];
    var matched := count == branchPos;
    var level := 0;
    matchLevel, branch, mutated := matchLevelIn, branchIn, false;
    AbsorbStart(hash, leaves, branchPos, count, matchLevel, branch);
    while !Bit(count + 1, level)
      invariant Merging(hash, leaves, count + 1, level, h)
      invariant inner[..] == old(inner[..])
      invariant wantBranch ==> Matching(hash, leaves, branchPos, count, level, matched, matchLevel, branch)
      invariant !wantBranch ==> branch == branchIn
      invariant mutated <==> NewPairBelow(hash, leaves, count + 1, level)
      decreases Shr(count + 1, level)
    {
      MergeStep(hash, leaves, inner[..], count, level, h);
      if wantBranch {
        MatchStep(hash, leaves, branchPos, count, level, matched, matchLevel, branch, inner[level], h);
        if matched {
          branch := branch + [inner[level]];
        } else if matchLevel == level {
          branch := branch + [h];
          matched := true;
        }
      }
      if inner[level] == h {
        mutated := true;
      }
      h := hash(inner[level], h);
      level := level + 1;
    }
    AbsorbEnd(hash, leaves, inner[..], count, level, h);
    inner[level] := h;
    assert inner[..] == old(inner[..])[level := h];
    if wantBranch {
      MatchEnd(hash, leaves, branchPos, count, level, matched, matchLevel, branch);
    }
    if matched {
      matchLevel := level;
    }
  }

  /* The final sweep */

  /** h is the last node of its level; c is the leaf count rounded up to whole nodes of that level. */
  ghost predicate Sweeping<T>(hash: (T, T) -> T, s: seq<T>, c: nat, level: nat, h: T) {
    !Ragged(c, level) && c <= MAX_LEAVES && Shr(c, level) == Width(|s|, level) &&
    IsNode(hash, s, level, Width(|s|, level) - 1, h) && (level == 0 || Width(|s|, level - 1) > 1)
  }

  /** Leaf pos is under the last node of its level, or still in a carried subtree at level from or above. */
  ghost predicate SweepMatching<T>(hash: (T, T) -> T, s: seq<T>, pos: nat, level: nat, from: nat,
                                   matched: bool, matchLevel: int, branch: seq<T>) {
    if matched then
      pos < |s| && Shr(pos, level) == Width(|s|, level) - 1 && branch == BranchTo(hash, s, pos, level)
    else
      Tracked(hash, s, pos, |s|, matchLevel, branch) && (pos < |s| ==> matchLevel >= from)
  }

  lemma {:induction false} SkipStep(n: nat, level: nat)
    requires 0 < n && !Ragged(n, level) && !Bit(n, level)
    ensures !Ragged(n, level + 1) && Shr(n, level + 1) < Shr(n, level)
  {
    AlignedIsPositive(n, level);
  }

  /** The sweep starts from the carried subtree of the lowest set bit, which is the last node of its level. */
  lemma {:induction false} SweepStart<T>(hash: (T, T) -> T, s: seq<T>, inner: seq<T>, pos: nat, level: nat,
      matchLevel: int, branch: seq<T>)
    requires 0 < |s| <= MAX_LEAVES && Carried(hash, s, inner, |s|)
    requires !Ragged(|s|, level) && Bit(|s|, level)
    ensures level < SLOTS && level < |inner| && Sweeping(hash, s, |s|, level, inner[level])
    ensures Tracked(hash, s, pos, |s|, matchLevel, branch) ==>
              SweepMatching(hash, s, pos, level, level + 1, matchLevel == level, matchLevel, branch)
  {
    hide IsNode, Level, Width, BranchTo, Pow2;
    var n := |s|;
    LevelInRange(n, level);
    WidthIsShr(n, level);
    if level > 0 {
      WidthIsShr(n, level - 1);
      AlignedIsPositive(n, level);
    }
    if Tracked(hash, s, pos, n, matchLevel, branch) && pos < n && matchLevel < level {
      RaggedMonotone(n, matchLevel + 1, level);
    }
  }

  /** Rounding an odd number of nodes up to the next pair stays within the counter. */
  lemma {:induction false} RoundUp(c: nat, level: nat)
    requires c <= MAX_LEAVES && !Ragged(c, level) && Bit(c, level) && Shr(c, level) > 1
    ensures c + Pow2(level) <= MAX_LEAVES
    ensures !Ragged(c + Pow2(level), level + 1) && Shr(c + Pow2(level), level + 1) == (Shr(c, level) + 1) / 2
  {
    AddBlock(c, level);
    LevelInRange(c, level);
    ShrMonotone(c, MAX_LEAVES, level);
    ShrPow2(31, level);
    PowIsEven(31 - level, Shr(c, level));
    BlocksCompare(c + Pow2(level), MAX_LEAVES, level);
  }

  lemma {:induction false} PowIsEven(k: nat, x: nat)
    requires 1 < x <= Pow2(k) && x % 2 == 1
    ensures x < Pow2(k)
  {
  }

  /** An unpaired last node that is not the root is combined with itself. */
  lemma {:induction false} SelfPairStep<T>(hash: (T, T) -> T, s: seq<T>, c: nat, level: nat, h: T)
    requires Sweeping(hash, s, c, level, h) && Bit(c, level) && c != Pow2(level)
    ensures Sweeping(hash, s, c + Pow2(level), level + 1, hash(h, h))
    ensures Ragged(|s|, level + 1)
    ensures Width(|s|, level + 1) < Width(|s|, level)
  {
    hide Level, Pow2;
    OneBlock(c, level);
    RoundUp(c, level);
    CombineLast(hash, s, level, Width(|s|, level) / 2, h);
    WidthIsShr(|s|, level);
  }

  lemma {:induction false} SelfPairMatch<T>(hash: (T, T) -> T, s: seq<T>, pos: nat, c: nat, level: nat, h: T,
                         matched: bool, matchLevel: int, branch: seq<T>)
    requires Sweeping(hash, s, c, level, h) && Bit(c, level)
    requires SweepMatching(hash, s, pos, level, level + 1, matched, matchLevel, branch)
    ensures SweepMatching(hash, s, pos, level + 1, level + 1, matched, matchLevel,
                          if matched then branch + [h] else branch)
  {
    hide Level, BranchTo, Pow2, Ragged;
    if matched {
      ExtendBranch(hash, s, pos, level, h);
    }
  }

  /** A paired last node is combined with the carried subtree to its left. */
  lemma {:induction false} CarryStep<T>(hash: (T, T) -> T, s: seq<T>, inner: seq<T>, c: nat, level: nat, h: T)
    requires |s| <= MAX_LEAVES && Carried(hash, s, inner, |s|)
    requires Sweeping(hash, s, c, level, h) && !Bit(c, level) && Ragged(|s|, level)
    ensures level < SLOTS && level < |inner| && IsNode(hash, s, level, Width(|s|, level) - 2, inner[level])
    ensures Sweeping(hash, s, c, level + 1, hash(inner[level], h)) && Ragged(|s|, level + 1)
    ensures Width(|s|, level + 1) < Width(|s|, level)
  {
    hide Pow2, ParentOf, Parents, Level, Height;
    var n := |s|;
    WidthIsShr(n, level);
    assert Bit(n, level);
    LevelInRange(n, level);
    CombinePair(hash, s, level, Width(n, level) / 2 - 1, inner[level], h);
  }

  lemma {:induction false} CarryMatch<T>(hash: (T, T) -> T, s: seq<T>, inner: seq<T>, pos: nat, c: nat, level: nat,
      h: T,
                      matched: bool, matchLevel: int, branch: seq<T>)
    requires Sweeping(hash, s, c, level, h) && !Bit(c, level) && Ragged(|s|, level)
    requires level < |inner| && IsNode(hash, s, level, Width(|s|, level) - 2, inner[level])
    requires SweepMatching(hash, s, pos, level, level, matched, matchLevel, branch)
    ensures SweepMatching(hash, s, pos, level + 1, level + 1, matched || matchLevel == level, matchLevel,
                          if matched then branch + [inner[level]]
                          else if matchLevel == level then branch + [h] else branch)
  {
    hide Level, BranchTo, Pow2, Ragged, IsNode;
    var w := Width(|s|, level);
    WidthIsShr(|s|, level);
    assert w == 2 * (w / 2) && Width(|s|, level + 1) == w / 2;
    if matched {
      assert Shr(pos, level) == w - 1 && Bit(pos, level);
      ExtendBranch(hash, s, pos, level, inner[level]);
    } else if matchLevel == level {
      assert Shr(pos, level) == w - 2 && !Bit(pos, level);
      ExtendBranch(hash, s, pos, level, h);
    }
  }

  /** Back at an unpaired node, no carried subtree sits at this level. */
  lemma {:induction false} CarryMatchEnd<T>(hash: (T, T) -> T, s: seq<T>, pos: nat, c: nat, level: nat, h: T,
                         matched: bool, matchLevel: int, branch: seq<T>)
    requires Sweeping(hash, s, c, level, h) && Bit(c, level) && Ragged(|s|, level)
    requires SweepMatching(hash, s, pos, level, level, matched, matchLevel, branch)
    ensures SweepMatching(hash, s, pos, level, level + 1, matched, matchLevel, branch)
  {
    hide Level, IsNode, BranchTo, Width, Ragged, Pow2;
    WidthIsShr(|s|, level);
  }

  /** When the rounded count is a single node, that node is the root and the branch is complete. */
  lemma {:induction false} SweepEnd<T>(hash: (T, T) -> T, s: seq<T>, pos: nat, level: nat, h: T,
                    matched: bool, matchLevel: int, branch: seq<T>)
    requires s != [] && Sweeping(hash, s, Pow2(level), level, h)
    ensures h == Root(hash, s)
    ensures SweepMatching(hash, s, pos, level, level + 1, matched, matchLevel, branch) ==>
              branch == if pos < |s| then Branch(hash, s, pos) else []
  {
    hide Level, BranchTo, Height, Root;
    OneBlock(Pow2(level), level);
    HeightUnique(|s|, level);
    RootIsTop(hash, s);
    if SweepMatching(hash, s, pos, level, level + 1, matched, matchLevel, branch) && !matched && pos < |s| {
      WidthIsShr(|s|, level);
      ShrShrinks(|s|, level + 1, matchLevel);
      assert false;
    }
  }

  /** Before any leaf is absorbed nothing is carried, tracked or mutated. */
  lemma {:induction false} ComputationStart<T>(hash: (T, T) -> T, s: seq<T>, inner: seq<T>, pos: nat)
    requires |inner| == SLOTS
    ensures Carried(hash, s, inner, 0) && Tracked(hash, s, pos, 0, -1, []) && !MutatedUpTo(hash, s, 0)
    ensures s == [] ==> !Mutated(hash, s)
  {
    forall l: nat
      ensures Shr(0, l) == 0
    {
      ShrZero(0, l);
      Pow2Monotone(0, l);
    }
  }

  lemma {:induction false} AllAbsorbed<T>(hash: (T, T) -> T, s: seq<T>)
    ensures Mutated(hash, s) <==> MutatedUpTo(hash, s, |s|)
    ensures !Ragged(|s|, 0)
  {
  }

  /**
   merkleComputation: the root, the mutation flag and the branch of leaf branchPos in one pass that
   keeps 32 hashes. On an empty list the root is the zero hash.
   */
  method MerkleComputation<T(==, 0)>(hash: (T, T) -> T, zero: T, leaves: seq<T>, branchPos: nat, wantBranch: bool)
    returns (root: T, mutated: bool, branch: seq<T>)
    requires |leaves| <= MAX_LEAVES
    ensures root == if leaves == [] then zero else Root(hash, leaves)
    ensures mutated <==> Mutated(hash, leaves)
    ensures branch == if wantBranch && branchPos < |leaves| then Branch(hash, leaves, branchPos) else []
  {
    hide *;
    branch, mutated := [], false;
    var inner := new T[SLOTS];
    ComputationStart(hash, leaves, inner[..], branchPos);
    if |leaves| == 0 {
      return zero, false, [];
    }
    var count := 0;
    var matchLevel := -1;
    while count < |leaves|
      invariant 0 <= count <= |leaves|
      invariant Carried(hash, leaves, inner[..], count)
      invariant wantBranch ==> Tracked(hash, leaves, branchPos, count, matchLevel, branch)
      invariant !wantBranch ==> branch == []
      invariant mutated <==> MutatedUpTo(hash, leaves, count)
    {
      var equalSiblings;
      matchLevel, branch, equalSiblings := AbsorbLeaf(hash, leaves, inner, count, branchPos, wantBranch, matchLevel, branch);
      if equalSiblings {
        mutated := true;
      }
      count := count + 1;
    }
    AllAbsorbed(hash, leaves);
    root, branch := Sweep(hash, leaves, inner, branchPos, wantBranch, matchLevel, branch);
  }

  /** The final sweep over the rightmost path of the tree. */
  method Sweep<T>(hash: (T, T) -> T, leaves: seq<T>, inner: array<T>, branchPos: nat, wantBranch: bool,
                  matchLevel: int, branchIn: seq<T>)
    returns (root: T, branch: seq<T>)
    requires inner.Length == SLOTS
    requires 0 < |leaves| <= MAX_LEAVES && Carried(hash, leaves, inner[..], |leaves|)
    requires wantBranch ==> Tracked(hash, leaves, branchPos, |leaves|, matchLevel, branchIn)
    ensures root == Root(hash, leaves)
    ensures wantBranch ==> branch == if branchPos < |leaves| then Branch(hash, leaves, branchPos) else []
    ensures !wantBranch ==> branch == branchIn
  {
    hide *;
    branch := branchIn;
    var count: nat, level: nat := |leaves|, 0;
    AllAbsorbed(hash, leaves);
    while !Bit(count, level)
      invariant !Ragged(count, level)
      decreases Shr(count, level)
    {
      SkipStep(count, level);
      level := level + 1;
    }
    SweepStart(hash, leaves, inner[..], branchPos, level, matchLevel, branch);
    var h := inner[level];
    var matched := matchLevel == level;
    while count != Pow2(level)
      invariant Sweeping(hash, leaves, count, level, h) && Bit(count, level)
      invariant wantBranch ==> SweepMatching(hash, leaves, branchPos, level, level + 1, matched, matchLevel, branch)
      invariant !wantBranch ==> branch == branchIn
      decreases Width(|leaves|, level)
    {
      ghost var width := Width(|leaves|, level);
      SelfPairStep(hash, leaves, count, level, h);
      if wantBranch {
        SelfPairMatch(hash, leaves, branchPos, count, level, h, matched, matchLevel, branch);
        if matched {
          branch := branch + [h];
        }
      }
      h := hash(h, h);
      count := count + Pow2(level);
      level := level + 1;
      while !Bit(count, level)
        invariant Sweeping(hash, leaves, count, level, h) && Ragged(|leaves|, level)
        invariant wantBranch ==> SweepMatching(hash, leaves, branchPos, level, level, matched, matchLevel, branch)
        invariant !wantBranch ==> branch == branchIn
        invariant Width(|leaves|, level) < width
        decreases Width(|leaves|, level)
      {
        CarryStep(hash, leaves, inner[..], count, level, h);
        if wantBranch {
          CarryMatch(hash, leaves, inner[..], branchPos, count, level, h, matched, matchLevel, branch);
          if matched {
            branch := branch + [inner[level]];
          } else if matchLevel == level {
            branch := branch + [h];
            matched := true;
          }
        }
        h := hash(inner[level], h);
        level := level + 1;
      }
      if wantBranch {
        CarryMatchEnd(hash, leaves, branchPos, count, level, h, matched, matchLevel, branch);
      }
    }
    SweepEnd(hash, leaves, branchPos, level, h, matched, matchLevel, branch);
    root := h;
  }

  /* The counter alone */

  /** The counter is a 32-bit word. */
  const WRAP: nat := 0x1_0000_0000

  /** The sum of two words as the hardware adds them. */
  function WordSum(x: nat, y: nat): nat { (x + y) % WRAP }

  lemma {:induction false} WordSumAt(x: nat, y: nat)
    requires x + y <= WRAP
    ensures WordSum(x, y) == if x + y == WRAP then 0 else x + y
  {
  }

  lemma {:induction false} WrapIsPower()
    ensures WRAP == Pow2(32)
  {
    assert Pow2(8) == 256;
    assert Pow2(16) == 0x1_0000;
    assert Pow2(24) == 0x100_0000;
  }

  /** count & (1 << level) != 0 on a 32-bit word, where shifting by 32 or more gives zero. */
  predicate WordBit(count: nat, level: nat) { level < SLOTS && Bit(count, level) }

  /** A word that is not zero has a bit. */
  lemma {:induction false} NonZeroHasBit(c: nat, level: nat)
    requires 0 < c < WRAP && !Ragged(c, level)
    ensures level < SLOTS
  {
    hide Pow2, Shr, Ragged;
    WrapIsPower();
    if level >= SLOTS {
      AlignedIsPositive(c, SLOTS) by {
        if Ragged(c, SLOTS) {
          RaggedMonotone(c, SLOTS, level);
        }
      }
      ShrZero(c, SLOTS);
    }
  }

  /** Rounding up never passes 2^32, and reaches it only from above 2^31. */
  lemma {:induction false} RoundUpWord(c: nat, level: nat)
    requires 0 < c < WRAP && level < SLOTS && !Ragged(c, level) && Bit(c, level) && c != Pow2(level)
    ensures c + Pow2(level) <= WRAP && (c <= MAX_LEAVES ==> c + Pow2(level) <= MAX_LEAVES)
    ensures !Ragged(c + Pow2(level), level + 1)
  {
    hide Pow2, Shr, Ragged;
    WrapIsPower();
    AlignedIsPositive(c, level);
    OneBlock(c, level);
    AddBlock(c, level);
    if c <= MAX_LEAVES {
      RoundUp(c, level);
    }
    PowerIsAligned(32, level);
    BelowByBlocks(c, WRAP, level);
    BlocksCompare(c + Pow2(level), WRAP, level);
    NextAligned(c + Pow2(level), level);
  }

  lemma {:induction false} NextAligned(c: nat, level: nat)
    requires !Ragged(c, level) && Shr(c, level) % 2 == 0
    ensures !Ragged(c, level + 1)
  {
  }

  lemma {:induction false} PowerIsAligned(k: nat, level: nat)
    requires level <= k
    ensures !Ragged(Pow2(k), level)
  {
    PowerAligned(k);
    if Ragged(Pow2(k), level) {
      RaggedMonotone(Pow2(k), level, k);
    }
  }

  lemma {:induction false} BelowByBlocks(c: nat, top: nat, level: nat)
    requires c < top && !Ragged(top, level)
    ensures Shr(c, level) < Shr(top, level)
  {
    if Shr(top, level) <= Shr(c, level) {
      BlocksCompare(top, c, level);
    }
  }

  /** The inner loop: up to the next bit that is set, or out of the slots. */
  method RiseToBit(count: nat, from: nat) returns (level: nat)
    requires count < WRAP && from <= SLOTS && !Ragged(count, from)
    ensures from <= level <= SLOTS && !Ragged(count, level)
    ensures level < SLOTS <==> count > 0
    ensures level < SLOTS ==> Bit(count, level)
  {
    level := from;
    while !WordBit(count, level) && level < SLOTS
      invariant from <= level <= SLOTS && !Ragged(count, level)
      decreases SLOTS - level
    {
      level := level + 1;
    }
    if count > 0 {
      NonZeroHasBit(count, level);
    } else {
      ZeroHasNoBit(level);
    }
  }

  lemma {:induction false} ZeroHasNoBit(level: nat)
    ensures !Bit(0, level)
  {
    ShrZero(0, level);
    Pow2Monotone(0, level);
  }

  /**
   The calculator's loops on its 32-bit counter, without the hashes: false when a slot beyond the last is read, which
   is an index panic. The calculator is documented for up to 2^32 leaves; it stays in its slots up to 2^31.
   */
  method CountOnly(leaves: nat) returns (inSlots: bool)
    ensures inSlots <==> leaves <= MAX_LEAVES
  {
    hide Pow2, Ragged, Bit, WordSum;
    WordsAreLarger();
    if leaves == 0 {
      return true;
    }
    var count := 0;
    while count < leaves
      invariant count <= leaves && count < WRAP
    {
      WordSumAt(count, 1);
      count := WordSum(count, 1);
      NotRaggedAtZero(count);
      var level := RiseToBit(count, 0);
      if level >= SLOTS {
        return false;
      }
    }
    NotRaggedAtZero(count);
    var level := RiseToBit(count, 0);
    while count != Pow2(level)
      invariant 0 < count < WRAP && level < SLOTS && Bit(count, level) && !Ragged(count, level)
      invariant leaves <= MAX_LEAVES <==> count <= MAX_LEAVES
      decreases SLOTS - level
    {
      RoundUpWord(count, level);
      ZeroIsAligned(level + 1);
      WordSumAt(count, Pow2(level));
      count := WordSum(count, Pow2(level));
      level := RiseToBit(count, level + 1);
      if level >= SLOTS {
        return false;
      }
    }
    Pow2Monotone(level, 31);
    inSlots := true;
  }

  lemma {:induction false} WordsAreLarger()
    ensures 0 < MAX_LEAVES < WRAP
  {
    Pow2Monotone(0, 31);
    WrapIsPower();
  }

  lemma {:induction false} NotRaggedAtZero(c: nat)
    ensures !Ragged(c, 0)
  {
  }

  lemma {:induction false} ZeroIsAligned(level: nat)
    ensures !Ragged(0, level)
  {
    if level > 0 {
      ZeroIsAligned(level - 1);
      ZeroHasNoBit(level - 1);
    }
  }

  method ComputeMerkleRoot<T(==, 0)>(hash: (T, T) -> T, zero: T, leaves: seq<T>) returns (root: T, mutated: bool)
    requires |leaves| <= MAX_LEAVES
    ensures root == if leaves == [] then zero else Root(hash, leaves)
    ensures mutated <==> Mutated(hash, leaves)
  {
    var branch;
    root, mutated, branch := MerkleComputation(hash, zero, leaves, 0xffff_ffff, false);
  }

  /** A branch folds back, from the leaf at its position, to the root over all leaves. */
  method ComputeMerkleBranch<T(==, 0)>(hash: (T, T) -> T, zero: T, leaves: seq<T>, position: nat) returns (branch: seq<T>)
    requires |leaves| <= MAX_LEAVES
    ensures position < |leaves| ==>
              |branch| == Height(|leaves|) && Fold(hash, leaves[position], branch, position) == Root(hash, leaves)
    ensures position >= |leaves| ==> branch == []
  {
    var root, mutated;
    root, mutated, branch := MerkleComputation(hash, zero, leaves, position, true);
    if position < |leaves| {
      BranchProvesLeaf(hash, leaves, position);
    }
  }

  method ComputeMerkleRootFromBranch<T>(hash: (T, T) -> T, leaf: T, branch: seq<T>, index: nat) returns (root: T)
    ensures root == Fold(hash, leaf, branch, index)
  {
    root := leaf;
    var idx, i := index, 0;
    while i < |branch|
      invariant 0 <= i <= |branch|
      invariant Fold(hash, root, branch[i..], idx) == Fold(hash, leaf, branch, index)
    {
      assert branch[i..][1..] == branch[i + 1..];
      if idx % 2 == 1 {
        root := hash(branch[i], root);
      } else {
        root := hash(root, branch[i]);
      }
      idx := idx / 2;
      i := i + 1;
    }
  }
}
