/** The partial Merkle tree object of logic/lmerkleblock: builder and extractor over its own fields. */
module PartialMerkleTrees {
  import opened Bits
  import opened MerkleSpec
  import opened PartialMerkleSpec

  /** What building a whole tree emits; the empty tree stores one zero hash. */
  function Emitted<T>(hash: (T, T) -> T, zero: T, txids: seq<T>, matches: seq<bool>, height: nat, pos: nat): Proof<T>
    requires txids == [] || pos < Width(|txids|, height)
  {
    if txids == [] then Proof([false], [zero]) else Build(hash, txids, matches, height, pos)
  }

  class PartialMerkleTree<T(==)> {
    var txs: nat
    var bits: seq<bool>
    var hashes: seq<T>
    var bad: bool

    /** Builds the proof for the matched transactions. */
    constructor New(hash: (T, T) -> T, zero: T, txids: seq<T>, matches: seq<bool>)
      requires |matches| == |txids|
      ensures txs == |txids| && !bad
      ensures txids != [] ==> Proof(bits, hashes) == ProofFor(hash, txids, matches)
      ensures txids == [] ==> Proof(bits, hashes) == Proof([false], [zero])
    {
      txs, bits, hashes, bad := |txids|, [], [], false;
      new;
      var height := TreeHeight();
      HeightOfNonEmpty(|txids|);
      TraverseAndBuild(hash, zero, height, 0, txids, matches);
    }

    /** The closed form of the source, (txs + (1 << height) - 1) >> height. */
    function CalcTreeWidth(height: nat): (w: nat)
      reads this
      ensures w == Width(txs, height)
    {
      Pow2Monotone(0, height);
      WidthClosedForm(txs, height);
      Shr(txs + Pow2(height) - 1, height)
    }

    method TreeHeight() returns (height: nat)
      ensures height == Height(txs)
    {
      height := 0;
      while CalcTreeWidth(height) > 1
        invariant height <= Height(txs)
        decreases Height(txs) - height
      {
        HeightReached(txs, height);
        height := height + 1;
      }
      HeightReached(txs, height);
    }

    /** Appends to the object exactly what the specification emits for the subtree. */
    method TraverseAndBuild(hash: (T, T) -> T, zero: T, height: nat, pos: nat, txids: seq<T>, matches: seq<bool>)
      requires txs == |txids| == |matches|
      requires if txids == [] then height == 0 && pos == 0 else pos < Width(|txids|, height)
      modifies this`bits, this`hashes
      ensures bits == old(bits) + Emitted(hash, zero, txids, matches, height, pos).bits
      ensures hashes == old(hashes) + Emitted(hash, zero, txids, matches, height, pos).hashes
      decreases height
    {
      hide *;
      var parentOfMatch := FindMatch(height, pos, matches);
      bits := bits + [parentOfMatch];
      EmittedCases(hash, zero, txids, matches, height, pos);
      if height == 0 || !parentOfMatch {
        hashes := hashes + [CalcHash(hash, zero, txids, height, pos)];
      } else {
        TraverseAndBuild(hash, zero, height - 1, 2 * pos, txids, matches);
        if 2 * pos + 1 < CalcTreeWidth(height - 1) {
          TraverseAndBuild(hash, zero, height - 1, 2 * pos + 1, txids, matches);
        }
      }
    }

    /** Whether some leaf of the node's range is matched. */
    method FindMatch(height: nat, pos: nat, matches: seq<bool>) returns (parentOfMatch: bool)
      requires txs == |matches|
      ensures parentOfMatch <==> ParentOfMatch(matches, height, pos)
    {
      parentOfMatch := false;
      ShlGrows(pos, height);
      var first, p := Shl(pos, height), Shl(pos, height);
      while p < Shl(pos + 1, height) && p < txs
        invariant first <= p <= Shl(pos + 1, height)
        invariant parentOfMatch <==> exists q :: first <= q < p && q < txs && matches[q]
        decreases txs - p
      {
        parentOfMatch := parentOfMatch || matches[p];
        p := p + 1;
      }
      MatchInRange(matches, height, pos);
    }

    /** The root the object proves, with the matched ids and positions appended to items. */
    method ExtractMatches(hash: (T, T) -> T, zero: T, itemsIn: seq<nat>) returns (root: T, matches: seq<T>, items: seq<nat>)
      modifies this`bad
      ensures var v := ExtractAll(hash, zero, txs, Proof(bits, hashes), old(bad));
              root == v.root && matches == v.matches && items == itemsIn + v.items && bad == v.bad
    {
      matches, items := [], itemsIn;
      if txs == 0 || |hashes| > txs || |bits| < |hashes| {
        return zero, matches, items;
      }
      hide Height, Extract;
      var height := TreeHeight();
      var bitUsed, hashUsed;
      root, bitUsed, hashUsed, matches, items := TraverseAndExtract(hash, zero, height, 0, 0, 0, matches, items);
      if bad || (bitUsed + 7) / 8 != (|bits| + 7) / 8 || hashUsed != |hashes| {
        root := zero;
      }
    }

    method TraverseAndExtract(hash: (T, T) -> T, zero: T, height: nat, pos: nat, bitIn: nat, hashIn: nat,
                              matchesIn: seq<T>, itemsIn: seq<nat>)
      returns (value: T, bitUsed: nat, hashUsed: nat, matches: seq<T>, items: seq<nat>)
      modifies this`bad
      ensures var e := Extract(hash, zero, txs, Proof(bits, hashes), height, pos, bitIn, hashIn);
              value == e.value && bitUsed == e.bitUsed && hashUsed == e.hashUsed &&
              matches == matchesIn + e.matches && items == itemsIn + e.items && bad == (old(bad) || e.bad)
      decreases height
    {
      hide *;
      ghost var p := Proof(bits, hashes);
      if bitIn >= |bits| || height == 0 || !bits[bitIn] {
        StoredReading(hash, zero, txs, p, height, pos, bitIn, hashIn);
      } else {
        OpenReading(hash, zero, txs, p, height - 1, pos, bitIn, hashIn);
      }
      bitUsed, hashUsed, matches, items := bitIn, hashIn, matchesIn, itemsIn;
      if bitUsed >= |bits| {
        bad := true;
        return zero, bitUsed, hashUsed, matches, items;
      }
      var parentOfMatch := bits[bitUsed];
      bitUsed := bitUsed + 1;
      if height == 0 || !parentOfMatch {
        if hashUsed >= |hashes| {
          bad := true;
          return zero, bitUsed, hashUsed, matches, items;
        }
        value := hashes[hashUsed];
        hashUsed := hashUsed + 1;
        if height == 0 && parentOfMatch {
          matches, items := matches + [value], items + [pos];
        }
        return;
      }
      var left, right;
      left, bitUsed, hashUsed, matches, items :=
        TraverseAndExtract(hash, zero, height - 1, 2 * pos, bitUsed, hashUsed, matches, items);
      if 2 * pos + 1 < CalcTreeWidth(height - 1) {
        right, bitUsed, hashUsed, matches, items :=
          TraverseAndExtract(hash, zero, height - 1, 2 * pos + 1, bitUsed, hashUsed, matches, items);
        if right == left {
          bad := true;
        }
      } else {
        right := left;
      }
      value := hash(left, right);
    }
  }

  lemma {:induction false} HeightOfNonEmpty(n: nat)
    ensures n == 0 ==> Height(n) == 0
    ensures n > 0 ==> Width(n, Height(n)) == 1
  {
    if n > 0 {
      HeightIsLeast(n);
    }
  }

  /** Up to the height the width exceeds one; at the height it does not. */
  lemma {:induction false} HeightReached(n: nat, h: nat)
    ensures h <= Height(n) && Width(n, h) <= 1 ==> h == Height(n)
    ensures h < Height(n) ==> Width(n, h) > 1
    ensures h == Height(n) ==> Width(n, h) <= 1
  {
    if n > 0 {
      HeightIsLeast(n);
    }
  }

  lemma {:induction false} MatchInRange(matches: seq<bool>, height: nat, pos: nat)
    ensures ParentOfMatch(matches, height, pos) <==>
            exists q :: Shl(pos, height) <= q < Shl(pos + 1, height) && q < |matches| && matches[q]
  {
    ParentOfMatchMeaning(matches, height, pos);
    forall q: nat
      ensures Shl(pos, height) <= q < Shl(pos + 1, height) <==> Shr(q, height) == pos
    {
      BlockRange(q, height, pos);
    }
  }

  /** Emitted, opened one level the way the traversal proceeds. */
  lemma {:induction false} EmittedCases<T>(hash: (T, T) -> T, zero: T, txids: seq<T>, matches: seq<bool>, height: nat,
      pos: nat)
    requires |txids| == |matches|
    requires if txids == [] then height == 0 && pos == 0 else pos < Width(|txids|, height)
    ensures var e, parent := Emitted(hash, zero, txids, matches, height, pos), ParentOfMatch(matches, height, pos);
            if height == 0 || !parent then
              e == Proof([parent], [CalcHash(hash, zero, txids, height, pos)])
            else
              txids != [] && 2 * pos < Width(|txids|, height - 1) &&
              var l := Emitted(hash, zero, txids, matches, height - 1, 2 * pos);
              if 2 * pos + 1 < Width(|txids|, height - 1) then
                var r := Emitted(hash, zero, txids, matches, height - 1, 2 * pos + 1);
                e == Proof([true] + l.bits + r.bits, l.hashes + r.hashes)
              else
                e == Proof([true] + l.bits, l.hashes)
  {
    hide Level;
    if txids != [] {
      CalcHashIsNode(hash, zero, txids, height, pos);
    }
  }
}
