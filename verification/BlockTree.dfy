/**
 The tree of block headers: model/blockindex and the index map of model/chain. A pointer to an index
 is the hash it is filed under.
 */
module BlockTree {
  import opened Wrappers
  import opened Basics

  datatype BlockIndex = BlockIndex(prev: Option<Hash>, skip: Option<Hash>, height: nat, time: nat, timeMax: nat,
                                   proof: nat, work: nat)

  type Tree = map<Hash, BlockIndex>

  /* Skip heights */

  /** a & b */
  function And(a: nat, b: nat): nat {
    if a == 0 || b == 0 then 0
    else 2 * And(a / 2, b / 2) + (if a % 2 == 1 && b % 2 == 1 then 1 else 0)
  }

  /** n & (n - 1) */
  function InvertLowestOne(n: nat): nat {
    if n == 0 then 0 else And(n, n - 1)
  }

  /** getSkipHeight */
  function SkipHeight(height: nat): nat {
    if height < 2 then 0
    else if height % 2 == 1 then InvertLowestOne(InvertLowestOne(height - 1)) + 1
    else InvertLowestOne(height)
  }

  /** The largest power of two dividing n. */
  function LowestOne(n: nat): nat
    requires n > 0
  {
    if n % 2 == 1 then 1 else 2 * LowestOne(n / 2)
  }

  lemma {:induction false} AndSame(a: nat)
    ensures And(a, a) == a
  {
    if a > 0 { AndSame(a / 2); }
  }

  lemma {:induction false} InvertLowestOneRemovesIt(n: nat)
    requires n > 0
    ensures InvertLowestOne(n) == n - LowestOne(n) && 0 < LowestOne(n) <= n
  {
    if n % 2 == 1 {
      AndSame(n / 2);
      assert (n - 1) / 2 == n / 2;
    } else {
      InvertLowestOneRemovesIt(n / 2);
      assert (n - 1) / 2 == n / 2 - 1;
    }
  }

  /** Every block but the first jumps to a strictly lower height. */
  lemma {:induction false} SkipHeightIsLower(height: nat)
    requires height > 0
    ensures SkipHeight(height) < height
  {
    if height >= 2 {
      if height % 2 == 1 {
        InvertLowestOneRemovesIt(height - 1);
        var once := InvertLowestOne(height - 1);
        if once > 0 {
          InvertLowestOneRemovesIt(once);
        }
      } else {
        InvertLowestOneRemovesIt(height);
      }
    }
  }

  /* Paths */

  /** Every index hangs off its parent one height up. */
  ghost predicate Linked(t: Tree) {
    forall b {:trigger LinkedAt(t, b)} :: b in t ==> LinkedAt(t, b)
  }

  ghost predicate LinkedAt(t: Tree, b: Hash)
    requires b in t
  {
    match t[b].prev
    case None => t[b].height == 0
    case Some(p) => p in t && t[b].height == t[p].height + 1
  }

  /** Following Prev n times. */
  ghost function Walk(t: Tree, b: Hash, n: nat): (a: Hash)
    requires Linked(t) && b in t && n <= t[b].height
    ensures a in t && t[a].height == t[b].height - n
    decreases n
  {
    assert LinkedAt(t, b);
    if n == 0 then b else Walk(t, t[b].prev.value, n - 1)
  }

  /** The ancestor at a height, by following Prev; none outside 0 .. the block's own height. */
  ghost function Ancestor(t: Tree, b: Hash, height: int): (a: Option<Hash>)
    requires Linked(t) && b in t
    ensures a.Some? <==> 0 <= height <= t[b].height
    ensures a.Some? ==> a.value in t && t[a.value].height == height
  {
    if 0 <= height <= t[b].height then Some(Walk(t, b, t[b].height - height)) else None
  }

  lemma {:induction false} WalkOn(t: Tree, b: Hash, n: nat, m: nat)
    requires Linked(t) && b in t && n + m <= t[b].height
    ensures Walk(t, Walk(t, b, n), m) == Walk(t, b, n + m)
    decreases n
  {
    if n > 0 {
      assert LinkedAt(t, b);
      WalkOn(t, t[b].prev.value, n - 1, m);
    }
  }

  /** An ancestor's ancestors are the block's own. */
  lemma {:induction false} AncestorOfAncestor(t: Tree, b: Hash, mid: int, height: int)
    requires Linked(t) && b in t && height <= mid && 0 <= mid <= t[b].height
    ensures Ancestor(t, Ancestor(t, b, mid).value, height) == Ancestor(t, b, height)
  {
    if height >= 0 {
      WalkOn(t, b, t[b].height - mid, mid - height);
    }
  }

  lemma {:induction false} AncestorOfParent(t: Tree, b: Hash, height: int)
    requires Linked(t) && b in t && t[b].prev.Some? && height < t[b].height
    ensures t[b].prev.value in t && t[t[b].prev.value].height == t[b].height - 1
    ensures Ancestor(t, t[b].prev.value, height) == Ancestor(t, b, height)
  {
    assert LinkedAt(t, b);
  }

  /** Adding an index with a new hash leaves every path alone. */
  lemma {:induction false} WalkInLargerTree(t: Tree, u: Tree, b: Hash, n: nat)
    requires Linked(t) && Linked(u) && b in t && n <= t[b].height && (forall a :: a in t ==> a in u && u[a] == t[a])
    ensures Walk(u, b, n) == Walk(t, b, n)
    decreases n
  {
    if n > 0 {
      assert LinkedAt(t, b) && LinkedAt(u, b);
      WalkInLargerTree(t, u, t[b].prev.value, n - 1);
    }
  }

  /* The invariant of the index map */

  ghost predicate SkipsRight(t: Tree, b: Hash)
    requires Linked(t) && b in t
  {
    assert LinkedAt(t, b);
    match t[b].prev
    case None => t[b].skip.None?
    case Some(p) => t[b].skip == Ancestor(t, p, SkipHeight(t[b].height))
  }

  /** The work and the latest time are those of the whole path. */
  ghost predicate SumsRight(t: Tree, b: Hash)
    requires Linked(t) && b in t
  {
    assert LinkedAt(t, b);
    match t[b].prev
    case None => t[b].work == t[b].proof && t[b].timeMax == t[b].time
    case Some(p) => t[b].work == t[p].work + t[b].proof && t[b].timeMax == Max(t[p].timeMax, t[b].time)
  }

  function Max(a: nat, b: nat): nat { if a < b then b else a }

  ghost predicate WellBuilt(t: Tree) {
    Linked(t) &&
    forall b {:trigger SkipsRight(t, b)} {:trigger SumsRight(t, b)} :: b in t ==> SkipsRight(t, b) && SumsRight(t, b)
  }

  /** The work of the blocks on the path down to the root. */
  ghost function PathWork(t: Tree, b: Hash): nat
    requires Linked(t) && b in t
    decreases t[b].height
  {
    assert LinkedAt(t, b);
    t[b].proof + if t[b].prev.None? then 0 else PathWork(t, t[b].prev.value)
  }

  lemma {:induction false} WorkOfPath(t: Tree, b: Hash)
    requires WellBuilt(t) && b in t
    ensures t[b].work == PathWork(t, b)
    decreases t[b].height
  {
    assert LinkedAt(t, b) && SumsRight(t, b);
    if t[b].prev.Some? {
      WorkOfPath(t, t[b].prev.value);
    }
  }

  /** With positive proofs a block always has more work than its ancestors. */
  lemma {:induction false} AncestorsHaveLessWork(t: Tree, b: Hash, n: nat)
    requires WellBuilt(t) && b in t && 0 < n <= t[b].height && forall a :: a in t ==> t[a].proof > 0
    ensures t[Walk(t, b, n)].work < t[b].work
    decreases n
  {
    assert LinkedAt(t, b) && SumsRight(t, b);
    var p := t[b].prev.value;
    if n > 1 {
      AncestorsHaveLessWork(t, p, n - 1);
    }
  }

  lemma {:induction false} TimeMaxOfPath(t: Tree, b: Hash, n: nat)
    requires WellBuilt(t) && b in t && n <= t[b].height
    ensures t[Walk(t, b, n)].time <= t[b].timeMax
    ensures exists k: nat :: k <= t[b].height && t[Walk(t, b, k)].time == t[b].timeMax
    decreases t[b].height
  {
    assert LinkedAt(t, b) && SumsRight(t, b);
    assert Walk(t, b, 0) == b;
    if t[b].prev.Some? {
      var p := t[b].prev.value;
      TimeMaxOfPath(t, p, if n == 0 then 0 else n - 1);
      var k: nat :| k <= t[p].height && t[Walk(t, p, k)].time == t[p].timeMax;
      assert Walk(t, b, k + 1) == Walk(t, p, k);
    }
  }

  /* The operations */

  /** GetAncestor: jumps by skip pointers where they help and still ends where following Prev would. */
  method GetAncestor(t: Tree, b: Hash, height: int) returns (r: Option<Hash>)
    requires WellBuilt(t) && b in t
    ensures r == Ancestor(t, b, height)
  {
    if height > t[b].height || height < 0 {
      return None;
    }
    if height == t[b].height {
      return Some(b);
    }
    r := WalkDown(t, b, height);
  }

  method WalkDown(t: Tree, b: Hash, height: nat) returns (r: Option<Hash>)
    requires WellBuilt(t) && b in t && height < t[b].height
    ensures r == Ancestor(t, b, height)
  {
    hide SkipHeight, Walk;
    var walk, heightWalk := b, t[b].height;
    while heightWalk > height
      invariant walk in t && t[walk].height == heightWalk >= height
      invariant Ancestor(t, walk, height) == Ancestor(t, b, height)
      decreases heightWalk
    {
      var heightSkip := SkipHeight(heightWalk);
      var heightSkipPrev := SkipHeight(heightWalk - 1);
      assert LinkedAt(t, walk) && SkipsRight(t, walk);
      SkipHeightIsLower(heightWalk);
      if t[walk].skip.Some? &&
         (heightSkip == height || (heightSkip > height && !(heightSkipPrev < heightSkip - 2 && heightSkipPrev >= height)))
      {
        JumpKeepsAncestor(t, walk, height);
        walk := t[walk].skip.value;
        heightWalk := heightSkip;
      } else {
        if t[walk].prev.None? {
          assert false;
        }
        AncestorOfParent(t, walk, height);
        walk := t[walk].prev.value;
        heightWalk := heightWalk - 1;
      }
    }
    AncestorOfSelf(t, walk);
    r := Some(walk);
  }

  lemma {:induction false} AncestorOfSelf(t: Tree, b: Hash)
    requires Linked(t) && b in t
    ensures Ancestor(t, b, t[b].height) == Some(b)
  {
  }

  lemma {:induction false} JumpKeepsAncestor(t: Tree, b: Hash, height: nat)
    requires Linked(t) && b in t && SkipsRight(t, b) && t[b].skip.Some? && height <= SkipHeight(t[b].height)
    ensures t[b].skip.value in t && t[t[b].skip.value].height == SkipHeight(t[b].height)
    ensures Ancestor(t, t[b].skip.value, height) == Ancestor(t, b, height)
  {
    hide SkipHeight;
    assert LinkedAt(t, b);
    var p, s := t[b].prev.value, SkipHeight(t[b].height);
    SkipHeightIsLower(t[b].height);
    AncestorOfAncestor(t, p, s, height);
    AncestorOfParent(t, b, height);
  }

  /** The index map with the header of most work. */
  class IndexMap {
    var tree: Tree
    var bestHeader: Option<Hash>

    ghost predicate Valid()
      reads this
    {
      WellBuilt(tree) && BestIsBest(tree, bestHeader)
    }

    constructor ()
      ensures Valid() && tree == map[]
    {
      tree := map[];
      bestHeader := None;
    }

    /** AddToIndexMap for a header not filed yet; BuildSkip is its inner call. */
    method AddToIndexMap(hash: Hash, prevHash: Hash, time: nat, proof: nat)
      requires Valid() && hash !in tree && prevHash != hash
      modifies this
      ensures Valid()
      ensures tree.Keys == old(tree).Keys + {hash} && forall b :: b in old(tree) ==> tree[b] == old(tree)[b]
      ensures tree[hash].prev == if prevHash in old(tree) then Some(prevHash) else None
      ensures tree[hash].time == time && tree[hash].proof == proof
    {
      ghost var before := tree;
      var bi := BuildIndex(tree, prevHash, time, proof);
      tree := tree[hash := bi];
      GrownIsWellBuilt(before, hash, bi);
      if bestHeader.None? || tree[bestHeader.value].work < bi.work {
        bestHeader := Some(hash);
      }
    }

    /**
     AcceptBlockHeader: a header already filed is left as it is; a new one is filed when its checks pass and its parent
     is there and not marked invalid, which the genesis header does not need.
     */
    method AcceptBlockHeader(hash: Hash, prevHash: Hash, time: nat, proof: nat, isGenesis: bool, checksPass: bool,
                             invalid: set<Hash>)
      returns (accepted: bool)
      requires Valid() && (isGenesis ==> prevHash != hash)
      modifies this
      ensures Valid() && forall b :: b in old(tree) ==> b in tree && tree[b] == old(tree)[b]
      ensures hash in old(tree) ==> tree == old(tree) && (accepted <==> hash !in invalid)
      ensures hash !in old(tree) ==>
                (accepted <==> checksPass && (isGenesis || (prevHash in old(tree) && prevHash !in invalid)))
      ensures hash !in old(tree) ==> tree.Keys == if accepted then old(tree).Keys + {hash} else old(tree).Keys
      ensures hash !in old(tree) && accepted ==>
                tree[hash].prev == (if prevHash in old(tree) then Some(prevHash) else None) &&
                tree[hash].time == time && tree[hash].proof == proof
    {
      if hash in tree {
        return hash !in invalid;
      }
      if !checksPass || (!isGenesis && (prevHash !in tree || prevHash in invalid)) {
        return false;
      }
      AddToIndexMap(hash, prevHash, time, proof);
      accepted := true;
    }
  }

  /** The index of a new header over its parent, if that is filed. */
  method BuildIndex(t: Tree, prevHash: Hash, time: nat, proof: nat) returns (bi: BlockIndex)
    requires WellBuilt(t)
    ensures BuiltOn(t, bi) && bi.prev == (if prevHash in t then Some(prevHash) else None)
    ensures bi.time == time && bi.proof == proof
  {
    bi := BlockIndex(None, None, 0, time, time, proof, proof);
    if prevHash in t {
      var pre := t[prevHash];
      bi := bi.(prev := Some(prevHash), height := pre.height + 1);
      var skip := GetAncestor(t, prevHash, SkipHeight(bi.height));
      bi := bi.(skip := skip);
      if pre.timeMax > bi.timeMax {
        bi := bi.(timeMax := pre.timeMax);
      }
      bi := bi.(work := proof + pre.work);
    }
  }

  ghost predicate BestIsBest(t: Tree, best: Option<Hash>) {
    match best
    case None => t == map[]
    case Some(h) => h in t && forall b :: b in t ==> t[b].work <= t[h].work
  }

  /** What AddToIndexMap fills in. */
  ghost predicate BuiltOn(t: Tree, bi: BlockIndex)
    requires Linked(t)
  {
    match bi.prev
    case None => bi.height == 0 && bi.skip.None? && bi.work == bi.proof && bi.timeMax == bi.time
    case Some(p) =>
      p in t && bi.height == t[p].height + 1 && bi.skip == Ancestor(t, p, SkipHeight(bi.height)) &&
      bi.work == t[p].work + bi.proof && bi.timeMax == Max(t[p].timeMax, bi.time)
  }

  lemma {:induction false} GrownIsWellBuilt(t: Tree, hash: Hash, bi: BlockIndex)
    requires WellBuilt(t) && hash !in t && BuiltOn(t, bi)
    ensures WellBuilt(t[hash := bi])
  {
    hide SkipHeight;
    var u := t[hash := bi];
    LinkedGrown(t, hash, bi);
    forall b | b in u
      ensures SkipsRight(u, b) && SumsRight(u, b)
    {
      GrownNode(t, hash, bi, b);
    }
  }

  lemma {:induction false} LinkedGrown(t: Tree, hash: Hash, bi: BlockIndex)
    requires Linked(t) && hash !in t && BuiltOn(t, bi)
    ensures Linked(t[hash := bi])
  {
    var u := t[hash := bi];
    forall b | b in u
      ensures LinkedAt(u, b)
    {
      if b != hash {
        assert LinkedAt(t, b);
      }
    }
  }

  lemma {:induction false} GrownNode(t: Tree, hash: Hash, bi: BlockIndex, b: Hash)
    requires WellBuilt(t) && hash !in t && BuiltOn(t, bi) && Linked(t[hash := bi]) && (b in t || b == hash)
    ensures SkipsRight(t[hash := bi], b) && SumsRight(t[hash := bi], b)
  {
    hide SkipHeight;
    var u := t[hash := bi];
    assert b in t ==> SkipsRight(t, b) && SumsRight(t, b);
    assert LinkedAt(u, b) && (b in t ==> LinkedAt(t, b));
    if u[b].prev.Some? {
      var p := u[b].prev.value;
      SkipHeightIsLower(u[b].height);
      WalkInLargerTree(t, u, p, t[p].height - SkipHeight(u[b].height));
    }
  }
}
