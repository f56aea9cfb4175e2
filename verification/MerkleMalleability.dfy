/**
 CVE-2012-2459: different transaction lists can share a Merkle root because an unpaired node is
 paired with itself. The calculator reports such lists by looking for two equal complete siblings.
 */
module MerkleMalleability {
  import opened Bits
  import opened MerkleSpec

  /** Nodes 2j and 2j+1 of level h exist and are equal. */
  ghost predicate EqualPair<T>(hash: (T, T) -> T, s: seq<T>, h: nat, j: int) {
    0 <= j && 2 * j + 1 < Width(|s|, h) && Level(hash, s, h)[2 * j] == Level(hash, s, h)[2 * j + 1]
  }

  /** Among the first c leaves, two complete sibling subtrees have equal hashes. */
  ghost predicate MutatedUpTo<T>(hash: (T, T) -> T, s: seq<T>, c: nat) {
    exists h: nat, j: nat :: EqualPair(hash, s, h, j) && 2 * j + 1 < Shr(c, h)
  }

  ghost predicate Mutated<T>(hash: (T, T) -> T, s: seq<T>) {
    MutatedUpTo(hash, s, |s|)
  }

  /** The pair that is hashed into node x of level h + 1. */
  function PairAt<T>(hash: (T, T) -> T, s: seq<T>, h: nat, x: nat): (T, T)
    requires x < Width(|s|, h + 1)
  {
    var below := Level(hash, s, h);
    (below[2 * x], if 2 * x + 1 < |below| then below[2 * x + 1] else below[2 * x])
  }

  /** Nodes x and y of the same level are equal and hash different pairs. */
  ghost predicate CollideAt<T>(hash: (T, T) -> T, s: seq<T>, t: seq<T>, h: nat, x: nat, y: nat) {
    x < Width(|s|, h + 1) && y < Width(|t|, h + 1) &&
    Level(hash, s, h + 1)[x] == Level(hash, t, h + 1)[y] && PairAt(hash, s, h, x) != PairAt(hash, t, h, y)
  }

  /** The trees over s and t exhibit a collision of the pair hash. */
  ghost predicate Collision<T>(hash: (T, T) -> T, s: seq<T>, t: seq<T>) {
    exists h: nat, x: nat, y: nat :: CollideAt(hash, s, t, h, x, y)
  }

  lemma {:induction false} SamePair<T>(hash: (T, T) -> T, s: seq<T>, t: seq<T>, h: nat, x: nat, y: nat)
    requires !Collision(hash, s, t) && x < Width(|s|, h + 1) && y < Width(|t|, h + 1)
    requires Level(hash, s, h + 1)[x] == Level(hash, t, h + 1)[y]
    ensures PairAt(hash, s, h, x) == PairAt(hash, t, h, y)
  {
    assert !CollideAt(hash, s, t, h, x, y);
  }

  lemma {:induction false} NodeOfChildren<T>(hash: (T, T) -> T, s: seq<T>, h: nat, x: nat)
    requires h > 0 && x < Width(|s|, h)
    ensures 2 * x < Width(|s|, h - 1) && Level(hash, s, h)[x] == ParentOf(hash, Level(hash, s, h - 1), x)
  {
  }

  /** A complete node that hashes like an incomplete one contains two equal complete siblings. */
  lemma {:induction false} CompleteEqualsIncomplete<T>(hash: (T, T) -> T, s: seq<T>, h: nat, x: nat, y: nat)
    requires !Collision(hash, s, s)
    requires x < Shr(|s|, h) && Shr(|s|, h) <= y < Width(|s|, h)
    requires Level(hash, s, h)[x] == Level(hash, s, h)[y]
    ensures Mutated(hash, s)
  {
    hide Level, Collision, Width;
    WidthIsShr(|s|, h);
    if h > 0 {
      WidthIsShr(|s|, h - 1);
      NodeOfChildren(hash, s, h, x);
      NodeOfChildren(hash, s, h, y);
      var below := Level(hash, s, h - 1);
      SamePair(hash, s, s, h - 1, x, y);
      if 2 * y + 1 < |below| {
        CompleteEqualsIncomplete(hash, s, h - 1, 2 * x + 1, 2 * y + 1);
      } else {
        assert EqualPair(hash, s, h - 1, x);
      }
    }
  }

  lemma {:induction false} WidthMonotone(n: nat, m: nat, h: nat)
    requires n <= m
    ensures Width(n, h) <= Width(m, h)
  {
    if h > 0 {
      WidthMonotone(n, m, h - 1);
    }
  }

  /** Level h of the shorter list is a prefix of level h of the longer one. */
  ghost predicate AgreeAt<T>(hash: (T, T) -> T, a: seq<T>, b: seq<T>, h: nat) {
    Width(|a|, h) <= Width(|b|, h) && Level(hash, a, h) <= Level(hash, b, h)
  }

  /** Under equal nodes i the levels below agree, and an unpaired node faces two equal ones. */
  lemma {:induction false} AgreePair<T>(hash: (T, T) -> T, a: seq<T>, b: seq<T>, h: nat, i: nat)
    requires !Collision(hash, a, b) && Width(|a|, h) <= Width(|b|, h) && AgreeAt(hash, a, b, h + 1)
    requires i < Width(|a|, h + 1)
    ensures var la, lb := Level(hash, a, h), Level(hash, b, h);
            la[2 * i] == lb[2 * i] && (2 * i + 1 < |la| ==> la[2 * i + 1] == lb[2 * i + 1]) &&
            (2 * i + 1 == |la| < |lb| ==> lb[2 * i] == lb[2 * i + 1])
  {
    hide Collision, Level;
    assert Level(hash, a, h + 1)[i] == Level(hash, b, h + 1)[i];
    SamePair(hash, a, b, h, i, i);
  }

  /** Agreement at a level carries one level down; a width that differs only there exposes an equal pair. */
  lemma {:induction false} AgreeBelow<T>(hash: (T, T) -> T, a: seq<T>, b: seq<T>, h: nat)
    requires !Collision(hash, a, b)
    requires |a| <= |b|
    requires AgreeAt(hash, a, b, h + 1)
    ensures AgreeAt(hash, a, b, h)
    ensures Width(|a|, h + 1) == Width(|b|, h + 1) && Width(|a|, h) < Width(|b|, h)
            ==> EqualPair(hash, b, h, Width(|b|, h + 1) - 1)
  {
    hide Collision, Level;
    WidthMonotone(|a|, |b|, h);
    var la, lb := Level(hash, a, h), Level(hash, b, h);
    forall k | 0 <= k < |la|
      ensures la[k] == lb[k]
    {
      assert k == 2 * (k / 2) || k == 2 * (k / 2) + 1;
      AgreePair(hash, a, b, h, k / 2);
    }
    if Width(|a|, h + 1) == Width(|b|, h + 1) && |la| < |lb| {
      AgreePair(hash, a, b, h, Width(|b|, h + 1) - 1);
    }
  }

  /** Walking down from level h: either every width below agrees too, or the longer list is mutated. */
  lemma {:induction false} AgreeToLeaves<T>(hash: (T, T) -> T, a: seq<T>, b: seq<T>, h: nat)
    requires !Collision(hash, a, b) && !Collision(hash, b, b)
    requires |a| <= |b|
    requires AgreeAt(hash, a, b, h)
    requires Width(|a|, h) == Width(|b|, h)
    ensures a == b || Mutated(hash, b)
  {
    hide Parents, Shr, Collision;
    if h > 0 {
      AgreeBelow(hash, a, b, h - 1);
      if Width(|a|, h - 1) == Width(|b|, h - 1) {
        AgreeToLeaves(hash, a, b, h - 1);
      } else {
        var j := Width(|b|, h) - 1;
        WidthIsShr(|b|, h - 1);
        if 2 * j + 1 >= Shr(|b|, h - 1) {
          CompleteEqualsIncomplete(hash, b, h - 1, 2 * j, 2 * j + 1);
        }
      }
    }
  }

  /**
   Two lists of equal height with the same root are the same list unless the longer one is reported as mutated, or
   their trees exhibit a collision of the pair hash. So short of a collision a list that passes the check is the only
   one of its height with its root.
   */
  lemma {:induction false} RootDeterminesList<T>(hash: (T, T) -> T, a: seq<T>, b: seq<T>)
    requires a != [] && b != []
    requires Height(|a|) == Height(|b|)
    requires Root(hash, a) == Root(hash, b)
    requires !Mutated(hash, if |a| <= |b| then b else a)
    ensures var short, long := if |a| <= |b| then a else b, if |a| <= |b| then b else a;
            a == b || Collision(hash, short, long) || Collision(hash, long, long)
  {
    hide Collision, Mutated, Level, Root;
    RootIsTop(hash, a);
    RootIsTop(hash, b);
    HeightIsLeast(|a|);
    HeightIsLeast(|b|);
    var short, long := if |a| <= |b| then a else b, if |a| <= |b| then b else a;
    if !Collision(hash, short, long) && !Collision(hash, long, long) {
      AgreeToLeaves(hash, short, long, Height(|a|));
    }
  }

  /* The attack the check exists for */

  /** A level over whole blocks of 2^k leaves is put together from the levels over its parts. */
  lemma {:induction false} LevelOfParts<T>(hash: (T, T) -> T, a: seq<T>, b: seq<T>, k: nat)
    requires !Ragged(|a|, k)
    ensures Level(hash, a + b, k) == Level(hash, a, k) + Level(hash, b, k)
  {
    if k > 0 {
      LevelOfParts(hash, a, b, k - 1);
      WidthIsShr(|a|, k - 1);
      assert !Bit(|a|, k - 1);
      hide Level;
      ParentsOfParts(hash, Level(hash, a, k - 1), Level(hash, b, k - 1));
      LevelAbove(hash, a, k - 1);
      LevelAbove(hash, b, k - 1);
      LevelAbove(hash, a + b, k - 1);
    }
  }

  lemma {:induction false} LevelAbove<T>(hash: (T, T) -> T, s: seq<T>, h: nat)
    ensures Level(hash, s, h + 1) == Parents(hash, Level(hash, s, h))
  {
  }

  lemma {:induction false} ParentsOfParts<T>(hash: (T, T) -> T, a: seq<T>, b: seq<T>)
    requires |a| % 2 == 0
    ensures Parents(hash, a + b) == Parents(hash, a) + Parents(hash, b)
  {
    var p, q := Parents(hash, a), Parents(hash, b);
    forall i | 0 <= i < |p + q|
      ensures Parents(hash, a + b)[i] == (p + q)[i]
    {
      if i >= |p| {
        assert (a + b)[2 * i] == b[2 * (i - |p|)];
      }
    }
  }

  /** Pairing the last node with itself or with a copy of it is the same. */
  lemma {:induction false} ParentsOfDoubled<T>(hash: (T, T) -> T, s: seq<T>)
    requires |s| % 2 == 1
    ensures Parents(hash, s + [s[|s| - 1]]) == Parents(hash, s)
  {
  }

  /** Levels above level k depend on level k alone. */
  lemma {:induction false} SameAbove<T>(hash: (T, T) -> T, s: seq<T>, t: seq<T>, k: nat, h: nat)
    requires k <= h && Level(hash, s, k) == Level(hash, t, k)
    ensures Level(hash, s, h) == Level(hash, t, h)
  {
    if k < h {
      SameAbove(hash, s, t, k, h - 1);
    }
  }

  /** The list with its last 2^k leaves repeated. */
  function TailRepeated<T>(s: seq<T>, k: nat): seq<T>
    requires Pow2(k) <= |s|
  {
    s + s[|s| - Pow2(k)..]
  }

  lemma {:induction false} RepeatedLevel<T>(hash: (T, T) -> T, s: seq<T>, k: nat)
    requires !Ragged(|s|, k) && Bit(|s|, k) && |s| != Pow2(k)
    ensures Pow2(k) <= |s| && Shr(|s|, k) > 1 && !Ragged(|TailRepeated(s, k)|, k)
    ensures Shr(|TailRepeated(s, k)|, k) == Shr(|s|, k) + 1
    ensures var l := Level(hash, s, k);
            |l| == Shr(|s|, k) && Level(hash, TailRepeated(s, k), k) == l + [l[|l| - 1]]
  {
    hide Level, Width, Pow2;
    ShrZero(|s|, k);
    OneBlock(|s|, k);
    AddBlock(|s|, k);
    var m := |s| - Pow2(k);
    var a, b := s[..m], s[m..];
    AddBlock(m, k);
    PowerAligned(k);
    OneBlock(|b|, k);
    WidthIsShr(|b|, k);
    WidthIsShr(|s|, k);
    LevelOfParts(hash, a, b, k);
    assert s == a + b;
    LevelOfParts(hash, s, b, k);
  }

  /**
   Repeating the last 2^k leaves of a list whose last node of level k is complete and unpaired keeps height and root,
   and is what the check reports.
   */
  lemma {:induction false} DuplicatingTailKeepsRoot<T>(hash: (T, T) -> T, s: seq<T>, k: nat)
    requires !Ragged(|s|, k) && Bit(|s|, k) && |s| != Pow2(k)
    ensures Pow2(k) <= |s|
    ensures var t := TailRepeated(s, k);
            t != s && Height(|t|) == Height(|s|) && Root(hash, t) == Root(hash, s) && Mutated(hash, t)
  {
    hide Level, Width, Shr, Height, Root, Pow2;
    RepeatedLevel(hash, s, k);
    var t := TailRepeated(s, k);
    Pow2Monotone(k, k);
    var l, u := Level(hash, s, k), Level(hash, t, k);
    ParentsOfDoubled(hash, l);
    LevelAbove(hash, s, k);
    LevelAbove(hash, t, k);
    assert Level(hash, s, k + 1) == Level(hash, t, k + 1);
    SameHeight(hash, s, t, k + 1);
    WidthIsShr(|t|, k);
    var j := |l| / 2;
    assert u[2 * j] == u[2 * j + 1];
    assert EqualPair(hash, t, k, j);
  }

  /** Equal from a level on that is not below the root: equal height and root. */
  lemma {:induction false} SameHeight<T>(hash: (T, T) -> T, s: seq<T>, t: seq<T>, k: nat)
    requires k > 0 && s != [] && t != [] && Level(hash, s, k) == Level(hash, t, k)
    requires Width(|s|, k - 1) > 1 && Width(|t|, k - 1) > 1
    ensures Height(|s|) == Height(|t|) && Root(hash, s) == Root(hash, t)
  {
    hide Level, Height, Root, Width;
    HeightIsLeast(|s|);
    HeightIsLeast(|t|);
    if Height(|s|) < k {
      WidthStaysOne(|s|, Height(|s|), k - 1);
    }
    SameAbove(hash, s, t, k, Height(|s|));
    if Height(|s|) > k {
      SameAbove(hash, s, t, k, Height(|s|) - 1);
      assert Width(|t|, Height(|s|) - 1) == |Level(hash, t, Height(|s|) - 1)|;
    }
    HeightUnique(|t|, Height(|s|));
    RootIsTop(hash, s);
    RootIsTop(hash, t);
  }

  /** Equal height cannot be dropped: a single leaf may be the root of a two-leaf tree. */
  lemma {:induction false} HeightIsNeeded<T>(hash: (T, T) -> T, x: T, y: T)
    requires x != y
    ensures Root(hash, [hash(x, y)]) == Root(hash, [x, y])
    ensures !Mutated(hash, [hash(x, y)]) && !Mutated(hash, [x, y])
  {
    var b := [x, y];
    assert Parents(hash, b) == [hash(x, y)];
    forall h: nat
      ensures Shr(1, h) <= 1
      ensures h > 0 ==> Shr(2, h) <= 1
    {
      ShrShrinks(1, 0, h);
      if h > 0 { ShrShrinks(2, 1, h); }
    }
    forall h: nat, j: nat | EqualPair(hash, b, h, j) && 2 * j + 1 < Shr(2, h)
      ensures false
    {
    }
  }
}
