/**
 The Merkle tree a block commits to, defined level by level: the parent level pairs neighbours and
 an unpaired last node is paired with itself. The pair hash is a parameter.
 */
module MerkleSpec {
  import opened Bits

  /** The hash of node i of the level above s. */
  function ParentOf<T>(hash: (T, T) -> T, s: seq<T>, i: nat): T
    requires 2 * i < |s|
  {
    hash(s[2 * i], if 2 * i + 1 < |s| then s[2 * i + 1] else s[2 * i])
  }

  function Parents<T>(hash: (T, T) -> T, s: seq<T>): (p: seq<T>)
    ensures |p| == (|s| + 1) / 2
    ensures forall i :: 0 <= i < |p| ==> p[i] == ParentOf(hash, s, i)
  {
    seq((|s| + 1) / 2, i requires 0 <= i < (|s| + 1) / 2 => ParentOf(hash, s, i))
  }

  /** The Merkle root: replace a level by its parents until one node is left. */
  function Root<T>(hash: (T, T) -> T, s: seq<T>): T
    requires s != []
    decreases |s|
  {
    if |s| == 1 then s[0] else Root(hash, Parents(hash, s))
  }

  /** Level h of the tree over the leaves s. */
  function Level<T>(hash: (T, T) -> T, s: seq<T>, h: nat): (level: seq<T>)
    ensures |level| == Width(|s|, h)
  {
    if h == 0 then s else Parents(hash, Level(hash, s, h - 1))
  }

  /** Number of nodes at level h over n leaves. */
  function Width(n: nat, h: nat): nat {
    if h == 0 then n else (Width(n, h - 1) + 1) / 2
  }

  /** The level of the root over n leaves. */
  function Height(n: nat): nat {
    if n <= 1 then 0 else 1 + Height((n + 1) / 2)
  }

  /** x is node pos of level h. */
  ghost predicate IsNode<T>(hash: (T, T) -> T, s: seq<T>, h: nat, pos: int, x: T) {
    0 <= pos < Width(|s|, h) && Level(hash, s, h)[pos] == x
  }

  /** Shr(n, h) nodes of level h are complete; at most one more is not. */
  lemma {:induction false} WidthIsShr(n: nat, h: nat)
    ensures Width(n, h) == Shr(n, h) + if Ragged(n, h) then 1 else 0
  {
    if h > 0 {
      WidthIsShr(n, h - 1);
    }
  }

  /** The source's closed form for the width, (n + (1 << h) - 1) >> h. */
  lemma {:induction false} WidthClosedForm(n: nat, h: nat)
    ensures n + Pow2(h) >= 1 && Shr(n + Pow2(h) - 1, h) == Width(n, h)
  {
    Pow2Monotone(0, h);
    if h > 0 {
      var m := (n + 1) / 2;
      ShrHalf(n + Pow2(h) - 1, h - 1);
      Pow2Monotone(0, h - 1);
      assert (n + Pow2(h) - 1) / 2 == m + Pow2(h - 1) - 1;
      WidthClosedForm(m, h - 1);
      WidthFromBelow(n, h - 1);
    }
  }

  lemma {:induction false} WidthFromBelow(n: nat, h: nat)
    ensures Width((n + 1) / 2, h) == Width(n, h + 1)
  {
    if h > 0 {
      WidthFromBelow(n, h - 1);
    }
  }

  lemma {:induction false} LevelFromBelow<T>(hash: (T, T) -> T, s: seq<T>, h: nat)
    ensures Level(hash, Parents(hash, s), h) == Level(hash, s, h + 1)
  {
    if h > 0 {
      LevelFromBelow(hash, s, h - 1);
    }
  }

  lemma {:induction false} HeightIsLeast(n: nat)
    requires n >= 1
    ensures Width(n, Height(n)) == 1
    ensures forall h :: 0 <= h < Height(n) ==> Width(n, h) > 1
  {
    if n > 1 {
      var m := (n + 1) / 2;
      HeightIsLeast(m);
      WidthFromBelow(n, Height(m));
      forall h | 0 <= h < Height(n)
        ensures Width(n, h) > 1
      {
        if h > 0 {
          WidthFromBelow(n, h - 1);
        }
      }
    }
  }

  lemma {:induction false} HeightUnique(n: nat, h: nat)
    requires n >= 1
    requires Width(n, h) == 1
    requires h == 0 || Width(n, h - 1) > 1
    ensures h == Height(n)
  {
    HeightIsLeast(n);
    if h > Height(n) {
      WidthStaysOne(n, Height(n), h - 1);
    }
  }

  lemma {:induction false} WidthStaysOne(n: nat, h: nat, k: nat)
    requires h <= k
    requires Width(n, h) == 1
    ensures Width(n, k) == 1
  {
    if h < k {
      WidthStaysOne(n, h, k - 1);
    }
  }

  /** The recursive root is the single node of the top level. */
  lemma {:induction false} RootIsTop<T>(hash: (T, T) -> T, s: seq<T>)
    requires s != []
    ensures IsNode(hash, s, Height(|s|), 0, Root(hash, s))
    decreases |s|
  {
    if |s| > 1 {
      var p := Parents(hash, s);
      RootIsTop(hash, p);
      LevelFromBelow(hash, s, Height(|p|));
      WidthFromBelow(|s|, Height(|p|));
    }
  }

  lemma {:induction false} CombinePair<T>(hash: (T, T) -> T, s: seq<T>, h: nat, j: nat, l: T, r: T)
    requires IsNode(hash, s, h, 2 * j, l) && IsNode(hash, s, h, 2 * j + 1, r)
    ensures IsNode(hash, s, h + 1, j, hash(l, r))
  {
  }

  lemma {:induction false} CombineLast<T>(hash: (T, T) -> T, s: seq<T>, h: nat, j: nat, l: T)
    requires IsNode(hash, s, h, 2 * j, l) && Width(|s|, h) == 2 * j + 1
    ensures IsNode(hash, s, h + 1, j, hash(l, l))
  {
  }

  /** Every position's ancestor exists at every level. */
  lemma {:induction false} PositionInWidth(n: nat, pos: nat, h: nat)
    requires pos < n
    ensures Shr(pos, h) < Width(n, h)
  {
    if h > 0 {
      PositionInWidth(n, pos, h - 1);
    }
  }

  /* Branches */

  /** The sibling that hides ancestor h of leaf pos; an unpaired node is its own sibling. */
  function Sibling<T>(hash: (T, T) -> T, s: seq<T>, pos: nat, h: nat): T
    requires Shr(pos, h) < Width(|s|, h)
  {
    var i, level := Shr(pos, h), Level(hash, s, h);
    if i % 2 == 1 then level[i - 1] else if i + 1 < |level| then level[i + 1] else level[i]
  }

  /** The siblings of leaf pos below level k, lowest first. */
  function BranchTo<T>(hash: (T, T) -> T, s: seq<T>, pos: nat, k: nat): (b: seq<T>)
    requires pos < |s|
    ensures |b| == k
  {
    if k == 0 then [] else
      PositionInWidth(|s|, pos, k - 1);
      BranchTo(hash, s, pos, k - 1) + [Sibling(hash, s, pos, k - 1)]
  }

  /** y is the sibling of leaf pos at level k: its left or right neighbour, or the unpaired node itself. */
  ghost predicate IsSibling<T>(hash: (T, T) -> T, s: seq<T>, pos: nat, k: nat, y: T) {
    if Bit(pos, k) then IsNode(hash, s, k, Shr(pos, k) - 1, y)
    else if Shr(pos, k) + 1 < Width(|s|, k) then IsNode(hash, s, k, Shr(pos, k) + 1, y)
    else IsNode(hash, s, k, Shr(pos, k), y)
  }

  lemma {:induction false} ExtendBranch<T>(hash: (T, T) -> T, s: seq<T>, pos: nat, k: nat, y: T)
    requires pos < |s| && IsSibling(hash, s, pos, k, y)
    ensures BranchTo(hash, s, pos, k + 1) == BranchTo(hash, s, pos, k) + [y]
  {
    PositionInWidth(|s|, pos, k);
  }

  function Branch<T>(hash: (T, T) -> T, s: seq<T>, pos: nat): seq<T>
    requires pos < |s|
  {
    BranchTo(hash, s, pos, Height(|s|))
  }

  /** Folding a branch into a leaf, as a light client does. */
  function Fold<T>(hash: (T, T) -> T, x: T, branch: seq<T>, index: nat): T {
    if branch == [] then x
    else Fold(hash, if index % 2 == 1 then hash(branch[0], x) else hash(x, branch[0]), branch[1..], index / 2)
  }

  lemma {:induction false} FoldSnoc<T>(hash: (T, T) -> T, x: T, branch: seq<T>, y: T, index: nat)
    ensures Fold(hash, x, branch + [y], index) ==
            var z := Fold(hash, x, branch, index);
            if Bit(index, |branch|) then hash(y, z) else hash(z, y)
  {
    if branch == [] {
      assert branch + [y] == [y];
      assert [y][1..] == [];
    } else {
      var x' := if index % 2 == 1 then hash(branch[0], x) else hash(x, branch[0]);
      assert (branch + [y])[1..] == branch[1..] + [y];
      FoldSnoc(hash, x', branch[1..], y, index / 2);
      ShrHalf(index, |branch| - 1);
    }
  }

  /** A node and its sibling hash, in the order the position's bit asks for, to their parent. */
  lemma {:induction false} SiblingMakesParent<T>(hash: (T, T) -> T, s: seq<T>, pos: nat, k: nat, z: T)
    requires IsNode(hash, s, k, Shr(pos, k), z)
    ensures IsNode(hash, s, k + 1, Shr(pos, k + 1),
                   var y := Sibling(hash, s, pos, k); if Bit(pos, k) then hash(y, z) else hash(z, y))
  {
    var i, y := Shr(pos, k), Sibling(hash, s, pos, k);
    if i % 2 == 1 {
      CombinePair(hash, s, k, i / 2, y, z);
    } else if i + 1 < Width(|s|, k) {
      CombinePair(hash, s, k, i / 2, z, y);
    } else {
      CombineLast(hash, s, k, i / 2, z);
    }
  }

  /** Folding the first k siblings gives the ancestor at level k. */
  lemma {:induction false} FoldReachesLevel<T>(hash: (T, T) -> T, s: seq<T>, pos: nat, k: nat)
    requires pos < |s|
    ensures IsNode(hash, s, k, Shr(pos, k), Fold(hash, s[pos], BranchTo(hash, s, pos, k), pos))
  {
    if k > 0 {
      FoldReachesLevel(hash, s, pos, k - 1);
      PositionInWidth(|s|, pos, k - 1);
      var b := BranchTo(hash, s, pos, k - 1);
      SiblingMakesParent(hash, s, pos, k - 1, Fold(hash, s[pos], b, pos));
      FoldSnoc(hash, s[pos], b, Sibling(hash, s, pos, k - 1), pos);
    }
  }

  /** Every leaf's branch folds back to the root. */
  lemma {:induction false} BranchProvesLeaf<T>(hash: (T, T) -> T, s: seq<T>, pos: nat)
    requires pos < |s|
    ensures Fold(hash, s[pos], Branch(hash, s, pos), pos) == Root(hash, s)
  {
    RootIsTop(hash, s);
    HeightIsLeast(|s|);
    FoldReachesLevel(hash, s, pos, Height(|s|));
    PositionInWidth(|s|, pos, Height(|s|));
  }
}
