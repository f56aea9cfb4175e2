/** CheckBlockIndex: the walk over the block index without a stack (logic/lchain/lactivechain.go). */
module TreeCheck {
  import opened Wrappers
  import opened Basics
  import opened TreeCheckSpec

  /* The forward tree */

  /** f files the nodes of done under their parents. */
  ghost predicate FilesOf(t: Index, done: set<Hash>, f: Forward, k: Option<Hash>)
    requires done <= t.Keys
  {
    k in f ==>
      f[k] != [] && (forall i :: 0 <= i < |f[k]| ==> f[k][i] in done && t[f[k][i]].prev == k) &&
      (forall i, j :: 0 <= i < j < |f[k]| ==> f[k][i] != f[k][j])
  }

  ghost predicate Filed(t: Index, done: set<Hash>, f: Forward)
    requires done <= t.Keys
  {
    (forall k {:trigger FilesOf(t, done, f, k)} :: FilesOf(t, done, f, k)) &&
    (forall b {:trigger Listed(t, f, b)} :: b in done ==> Listed(t, f, b))
  }

  ghost function Lens(f: Forward): nat
    decreases |f|
  {
    if f == map[] then 0
    else
      var k :| k in f;
      |f[k]| + Lens(f - {k})
  }

  lemma {:induction false} LensWithout(f: Forward, k: Option<Hash>)
    requires k in f
    ensures Lens(f) == |f[k]| + Lens(f - {k})
    decreases |f|
  {
    var j :| j in f && Lens(f) == |f[j]| + Lens(f - {j});
    if j != k {
      LensWithout(f - {j}, k);
      LensWithout(f - {k}, j);
      assert f - {j} - {k} == f - {k} - {j};
    }
  }

  lemma {:induction false} LensGrows(f: Forward, k: Option<Hash>, b: Hash)
    ensures Lens(f[k := Kids(f, k) + [b]]) == Lens(f) + 1
  {
    var g := f[k := Kids(f, k) + [b]];
    LensWithout(g, k);
    if k in f {
      LensWithout(f, k);
      assert g - {k} == f - {k};
    } else {
      assert g - {k} == f;
    }
  }

  lemma {:induction false} FileOne(t: Index, done: set<Hash>, f: Forward, b: Hash)
    requires done <= t.Keys && Filed(t, done, f) && b in t && b !in done
    ensures Filed(t, done + {b}, f[t[b].prev := Kids(f, t[b].prev) + [b]])
  {
    var k := t[b].prev;
    var g := f[k := Kids(f, k) + [b]];
    forall j
      ensures FilesOf(t, done + {b}, g, j)
    {
      assert FilesOf(t, done, f, j);
    }
    forall c | c in done + {b}
      ensures Listed(t, g, c)
    {
      if c != b {
        assert Listed(t, f, c);
      } else {
        assert g[k][|g[k]| - 1] == b;
      }
    }
  }

  /** BuildForwardTree; the map is walked in any order. */
  method BuildForwardTree(t: Index) returns (f: Forward)
    ensures IsForward(t, f) && Lens(f) == |t|
  {
    hide Filed;
    f := map[];
    var left := t.Keys;
    FiledNone(t);
    while left != {}
      invariant left <= t.Keys && Filed(t, t.Keys - left, f) && Lens(f) == |t.Keys - left|
      decreases left
    {
      var b :| b in left;
      FileOne(t, t.Keys - left, f, b);
      LensGrows(f, t[b].prev, b);
      assert t.Keys - (left - {b}) == t.Keys - left + {b};
      f := f[t[b].prev := Kids(f, t[b].prev) + [b]];
      left := left - {b};
    }
    assert t.Keys - left == t.Keys;
    FiledAll(t, f);
  }

  lemma {:induction false} FiledNone(t: Index)
    ensures Filed(t, t.Keys - t.Keys, map[]) && Lens(map[]) == |t.Keys - t.Keys|
  {
  }

  lemma {:induction false} FiledAll(t: Index, f: Forward)
    requires Filed(t, t.Keys, f)
    ensures IsForward(t, f) && |t.Keys| == |t|
  {
    forall k
      ensures ListsChildren(t, f, k)
    {
      assert FilesOf(t, t.Keys, f, k);
    }
  }

  method CountForward(f: Forward) returns (n: nat)
    ensures n == Lens(f)
  {
    n := 0;
    var left := f;
    while left != map[]
      invariant n + Lens(left) == Lens(f)
      decreases |left|
    {
      var k :| k in left;
      LensWithout(left, k);
      n := n + |left[k]|;
      left := left - {k};
    }
  }

  /* The walk's variables */

  function SetFirst(first: Option<Hash>, has: bool, b: Hash): Option<Hash> {
    if first.None? && has then Some(b) else first
  }

  function Unset(first: Option<Hash>, b: Hash): Option<Hash> {
    if first == Some(b) then None else first
  }

  function Entered(first: Firsts, i: Info, b: Hash): Firsts {
    Firsts(SetFirst(first.invalid, Has(Invalid, i), b), SetFirst(first.missing, Has(Missing, i), b),
           SetFirst(first.neverProcessed, Has(NeverProcessed, i), b), SetFirst(first.notTreeValid, Has(NotTreeValid, i), b),
           SetFirst(first.notTransactionsValid, Has(NotTransactionsValid, i), b),
           SetFirst(first.notChainValid, Has(NotChainValid, i), b), SetFirst(first.notScriptsValid, Has(NotScriptsValid, i), b))
  }

  function Left(first: Firsts, b: Hash): Firsts {
    Firsts(Unset(first.invalid, b), Unset(first.missing, b), Unset(first.neverProcessed, b), Unset(first.notTreeValid, b),
           Unset(first.notTransactionsValid, b), Unset(first.notChainValid, b), Unset(first.notScriptsValid, b))
  }

  lemma {:induction false} EnterOne(t: Index, sh: Shape, p: Property, b: Hash)
    requires Forest(t, sh) && b in t && InForest(t, sh, b)
    ensures var above := if t[b].prev.None? then None else FirstOn(t, sh, p, t[b].prev.value);
            FirstOn(t, sh, p, b) == SetFirst(above, Has(p, t[b]), b) && Unset(FirstOn(t, sh, p, b), b) == above
  {
    if t[b].prev.Some? {
      FirstOnMeaning(t, sh, p, t[b].prev.value);
    }
  }

  /** Entering a node and leaving it move the variables along the path. */
  lemma {:induction false} EnterAndLeave(t: Index, sh: Shape, b: Hash)
    requires Forest(t, sh) && b in t
    ensures InForest(t, sh, b)
    ensures FirstsOn(t, sh, Some(b)) == Entered(FirstsOn(t, sh, t[b].prev), t[b], b)
    ensures Left(FirstsOn(t, sh, Some(b)), b) == FirstsOn(t, sh, t[b].prev)
  {
    assert InForest(t, sh, b);
    hide FirstOn, SetFirst, Unset, Has;
    EnterOne(t, sh, Invalid, b);
    EnterOne(t, sh, Missing, b);
    EnterOne(t, sh, NeverProcessed, b);
    EnterOne(t, sh, NotTreeValid, b);
    EnterOne(t, sh, NotTransactionsValid, b);
    EnterOne(t, sh, NotChainValid, b);
    EnterOne(t, sh, NotScriptsValid, b);
  }

  /* The walk */

  lemma {:induction false} IndexIsUnique(s: seq<Hash>, i: nat)
    requires i < |s| && NoRepeats(s)
    ensures IndexIn(s, s[i]) == i
  {
  }

  lemma {:induction false} ToSibling(t: Index, f: Forward, sh: Shape, b: Hash)
    requires Ready(t, f, sh) && b in t && Listed(t, f, b)
    requires IndexIn(f[t[b].prev], b) + 1 < |f[t[b].prev]|
    ensures var next := f[t[b].prev][IndexIn(f[t[b].prev], b) + 1];
            next in t && t[next].prev == t[b].prev && next in sh.depth && b in sh.depth && sh.depth[next] == sh.depth[b] &&
            After(t, f, sh, b) == Pre(t, f, sh, next) + After(t, f, sh, next)
  {
    var s := f[t[b].prev];
    var i := IndexIn(s, b);
    assert ListsChildren(t, f, t[b].prev);
    SiblingsAtDepth(t, f, sh, b);
    IndexIsUnique(s, i + 1);
    assert InForest(t, sh, b) && InForest(t, sh, s[i + 1]) && Listed(t, f, s[i + 1]);
  }

  lemma {:induction false} ToParent(t: Index, f: Forward, sh: Shape, b: Hash)
    requires Ready(t, f, sh) && b in t && Listed(t, f, b)
    requires IndexIn(f[t[b].prev], b) + 1 == |f[t[b].prev]|
    ensures InForest(t, sh, b)
    ensures After(t, f, sh, b) == if t[b].prev.None? then [] else After(t, f, sh, t[b].prev.value)
  {
    SiblingsAtDepth(t, f, sh, b);
    assert InForest(t, sh, b);
  }

  /** The next sibling's position, or the length of the list when b is the last. */
  method SearchSibling(siblings: seq<Hash>, b: Hash) returns (i: nat)
    requires b in siblings && NoRepeats(siblings)
    ensures i == var k := IndexIn(siblings, b); if k + 1 < |siblings| then k else |siblings|
  {
    i := 0;
    IndexIsUnique(siblings, IndexIn(siblings, b));
    while i < |siblings|
      invariant i <= |siblings| && (i <= IndexIn(siblings, b) || IndexIn(siblings, b) + 1 == |siblings|)
    {
      if siblings[i] == b {
        if i + 1 < |siblings| {
          return;
        }
      }
      i := i + 1;
    }
  }

  /** From a leaf upwards to the first node that has a sibling left. */
  method NextNode(t: Index, f: Forward, ghost sh: Shape, b: Hash, firstAt: Firsts, heightAt: int)
    returns (next: Option<Hash>, first: Firsts, height: int)
    requires Ready(t, f, sh) && b in t && b in sh.depth && firstAt == FirstsOn(t, sh, Some(b)) && heightAt == sh.depth[b]
    ensures next.None? ==> After(t, f, sh, b) == []
    ensures next.Some? ==>
              next.value in t && next.value in sh.depth && height == sh.depth[next.value] &&
              (t[next.value].prev.Some? ==> t[next.value].prev.value in t) && first == FirstsOn(t, sh, t[next.value].prev) &&
              After(t, f, sh, b) == Pre(t, f, sh, next.value) + After(t, f, sh, next.value)
  {
    first, height := firstAt, heightAt;
    var pindex := Some(b);
    hide FirstsOn, After, Pre;
    while pindex.Some?
      invariant pindex.None? ==> After(t, f, sh, b) == []
      invariant pindex.Some? ==> pindex.value in t && pindex.value in sh.depth
      invariant pindex.Some? ==> first == FirstsOn(t, sh, pindex) && height == sh.depth[pindex.value]
      invariant pindex.Some? ==> After(t, f, sh, b) == After(t, f, sh, pindex.value)
      decreases if pindex.Some? && pindex.value in sh.depth then sh.depth[pindex.value] + 1 else 0
    {
      var c := pindex.value;
      EnterAndLeave(t, sh, c);
      first := Left(first, c);
      var par := t[c].prev;
      SiblingsAtDepth(t, f, sh, c);
      SiblingsDiffer(t, f, par);
      var siblings := f[par];
      var i := SearchSibling(siblings, c);
      if i + 1 < |siblings| {
        ToSibling(t, f, sh, c);
        return Some(siblings[i + 1]), first, height;
      }
      ToParent(t, f, sh, c);
      pindex := par;
      height := height - 1;
    }
    next := None;
  }

  lemma {:induction false} SiblingsDiffer(t: Index, f: Forward, k: Option<Hash>)
    requires IsForward(t, f) && k in f
    ensures NoRepeats(f[k])
  {
    assert ListsChildren(t, f, k);
  }

  lemma {:induction false} ToFirstKid(t: Index, f: Forward, sh: Shape, b: Hash)
    requires Ready(t, f, sh) && b in t && Kids(f, Some(b)) != []
    ensures var kid := Kids(f, Some(b))[0];
            kid in t && t[kid].prev == Some(b) && kid in sh.depth && b in sh.depth && sh.depth[kid] == sh.depth[b] + 1 &&
            Pre(t, f, sh, b) + After(t, f, sh, b) == [b] + Pre(t, f, sh, kid) + After(t, f, sh, kid)
  {
    var s := Kids(f, Some(b));
    assert ListsChildren(t, f, Some(b)) && InForest(t, sh, b) && InForest(t, sh, s[0]);
    KidsAtDepth(t, f, sh, b);
    SiblingsAtDepth(t, f, sh, s[0]);
    IndexIsUnique(s, 0);
  }

  lemma {:induction false} LeafIsItself(t: Index, f: Forward, sh: Shape, b: Hash)
    requires Ready(t, f, sh) && b in t && Kids(f, Some(b)) == []
    ensures Pre(t, f, sh, b) == [b]
  {
    KidsAtDepth(t, f, sh, b);
  }

  /* The check */

  method FoundInUnlinked(t: Index, slice: seq<Hash>, b: Hash) returns (found: Option<bool>)
    requires b in t && forall j :: 0 <= j < |slice| ==> slice[j] in t
    ensures found == FindUnlinked(t, slice, b, 0)
  {
    for j := 0 to |slice|
      invariant FindUnlinked(t, slice, b, 0) == FindUnlinked(t, slice, b, j)
    {
      if t[slice[j]].prev != t[b].prev {
        return None;
      }
      if slice[j] == b {
        return Some(true);
      }
    }
    found := Some(false);
  }

  /** The consistency checks of one node, in order. */
  method CheckNode(t: Index, c: Context, b: Hash, first: Firsts, height: int) returns (r: Option<Failure>)
    requires b in t && (t[b].prev.Some? ==> t[b].prev.value in t)
    requires forall j :: 0 <= j < |Kids(c.unlinked, t[b].prev)| ==> Kids(c.unlinked, t[b].prev)[j] in t
    ensures r == NodeFailure(t, c, b, first, height)
  {
    r := EarlyFailure(t, c, b, first, height);
    if r.Some? {
      return;
    }
    hide EarlyFailure, FindUnlinked;
    var i := t[b];
    var found := FoundInUnlinked(t, Kids(c.unlinked, i.prev), b);
    if found.None? {
      return Some(UnlinkedWrongPrev);
    }
    if i.prev.Some? && i.haveData && first.neverProcessed.Some? && first.invalid.None? {
      if !found.value {
        return Some(ShouldBeUnlinked);
      }
    }
    if !i.haveData {
      if found.value {
        return Some(UnlinkedWithoutData);
      }
    }
    if first.missing.None? {
      if found.value {
        return Some(UnlinkedNothingMissing);
      }
    }
    if i.prev.Some? && i.haveData && first.neverProcessed.None? && first.missing.Some? {
      if !c.havePruned {
        return Some(MustHavePruned);
      }
    }
    r := None;
  }

  ghost predicate AllClean(t: Index, c: Context, sh: Shape, visited: seq<Hash>)
    requires Forest(t, sh) && UnlinkedKnown(t, c)
  {
    forall i :: 0 <= i < |visited| ==> visited[i] in t && Verdict(t, c, sh, visited[i]).None?
  }

  /** The nodes from p on, in the order of the walk. */
  ghost function Rest(t: Index, f: Forward, sh: Shape, p: Option<Hash>): seq<Hash>
    requires Ready(t, f, sh) && (p.Some? ==> p.value in t)
  {
    if p.None? then [] else Pre(t, f, sh, p.value) + After(t, f, sh, p.value)
  }

  /** The walk is about to enter p: the height is p's depth and the variables are those of its parent. */
  ghost predicate Entering(t: Index, sh: Shape, p: Option<Hash>, first: Firsts, height: int)
    requires Forest(t, sh)
  {
    p.Some? ==>
      p.value in t && InForest(t, sh, p.value) && height == sh.depth[p.value] &&
      first == FirstsOn(t, sh, t[p.value].prev)
  }

  /** One round of the walk: check the node, then go to its first child, its next sibling or up. */
  method VisitNode(t: Index, c: Context, f: Forward, ghost sh: Shape, b: Hash, firstIn: Firsts, heightIn: int)
    returns (r: Option<Failure>, next: Option<Hash>, first: Firsts, height: int)
    requires Ready(t, f, sh) && UnlinkedKnown(t, c) && b in t && Entering(t, sh, Some(b), firstIn, heightIn)
    ensures r == Verdict(t, c, sh, b)
    ensures r.None? ==> Entering(t, sh, next, first, height) && Rest(t, f, sh, Some(b)) == [b] + Rest(t, f, sh, next)
  {
    hide FirstsOn, After, Pre, Verdict, Entered, NodeFailure;
    EnterAndLeave(t, sh, b);
    first, height, next := Entered(firstIn, t[b], b), heightIn, None;
    VerdictIsNode(t, c, sh, b);
    r := CheckNode(t, c, b, first, height);
    if r.Some? {
      return;
    }
    var subnodes := Kids(f, Some(b));
    if |subnodes| > 0 {
      ToFirstKid(t, f, sh, b);
      assert InForest(t, sh, subnodes[0]);
      return None, Some(subnodes[0]), first, height + 1;
    }
    LeafIsItself(t, f, sh, b);
    next, first, height := NextNode(t, f, sh, b, first, height);
    if next.Some? {
      assert InForest(t, sh, next.value);
    }
  }

  /** Walks the whole tree below the root, every node once, until a check fails. */
  method WalkTree(t: Index, c: Context, f: Forward, ghost sh: Shape, root: Hash) returns (r: Option<Failure>, nodes: nat)
    requires Ready(t, f, sh) && UnlinkedKnown(t, c) && root in t && Kids(f, None) == [root] && t[root].prev.None?
    ensures r.None? ==> nodes == |Pre(t, f, sh, root)| && AllClean(t, c, sh, Pre(t, f, sh, root))
    ensures r.Some? ==> exists b :: b in t && r == Verdict(t, c, sh, b)
  {
    assert InForest(t, sh, root);
    RootIsLast(t, f, sh, root);
    NothingAboveRoot(t, sh);
    hide FirstsOn, After, Pre, Verdict, Ready;
    var first, height, pindex := NONE_YET, 0, Some(root);
    ghost var visited := [];
    ghost var all := Pre(t, f, sh, root);
    nodes := 0;
    while pindex.Some?
      invariant nodes == |visited| && AllClean(t, c, sh, visited) && Entering(t, sh, pindex, first, height)
      invariant all == visited + Rest(t, f, sh, pindex)
      decreases |all| - nodes
    {
      var b := pindex.value;
      nodes := nodes + 1;
      r, pindex, first, height := VisitNode(t, c, f, sh, b, first, height);
      if r.Some? {
        return;
      }
      visited := visited + [b];
    }
    r := None;
  }

  lemma {:induction false} NothingAboveRoot(t: Index, sh: Shape)
    requires Forest(t, sh)
    ensures FirstsOn(t, sh, None) == NONE_YET
  {
  }

  lemma {:induction false} RootIsLast(t: Index, f: Forward, sh: Shape, root: Hash)
    requires Ready(t, f, sh) && root in t && Kids(f, None) == [root] && t[root].prev.None?
    ensures After(t, f, sh, root) == []
  {
    SiblingsAtDepth(t, f, sh, root);
    IndexIsUnique([root], 0);
  }

  lemma {:induction false} VerdictIsNode(t: Index, c: Context, sh: Shape, b: Hash)
    requires Forest(t, sh) && UnlinkedKnown(t, c) && b in t && InForest(t, sh, b)
    ensures forall j :: 0 <= j < |Kids(c.unlinked, t[b].prev)| ==> Kids(c.unlinked, t[b].prev)[j] in t
    ensures Verdict(t, c, sh, b) == NodeFailure(t, c, b, FirstsOn(t, sh, Some(b)), sh.depth[b])
  {
  }

  ghost predicate OneRoot(t: Index) {
    exists root :: root in t && t[root].prev.None? && forall b :: b in t && t[b].prev.None? ==> b == root
  }

  /** CheckBlockIndex passes exactly when there is one root and every node of the tree is as it should be. */
  method CheckBlockIndex(t: Index, c: Context, ghost sh: Shape) returns (r: Option<Failure>)
    requires Forest(t, sh) && UnlinkedKnown(t, c)
    ensures r.None? <==>
            (c.hasActiveChain || |t| <= 1) && OneRoot(t) && forall b :: b in t ==> Verdict(t, c, sh, b).None?
  {
    if !c.hasActiveChain {
      if |t| > 1 {
        return Some(NoActiveChain);
      }
    }
    var f := BuildForwardTree(t);
    var forwardCount := CountForward(f);
    if forwardCount != |t| {
      assert false;
    }
    RootsListed(t, f);
    if None !in f || |f[None]| != 1 {
      return Some(GenesisCount);
    }
    var root := f[None][0];
    assert f[None] == [root];
    WalkIsComplete(t, f, sh, root);
    hide Verdict, Pre;
    var nodes;
    r, nodes := WalkTree(t, c, f, sh, root);
    if r.Some? {
      return;
    }
    CleanEverywhere(t, c, sh, Pre(t, f, sh, root));
    if nodes != forwardCount {
      assert false;
    }
  }

  lemma {:induction false} CleanEverywhere(t: Index, c: Context, sh: Shape, s: seq<Hash>)
    requires Forest(t, sh) && UnlinkedKnown(t, c) && AllClean(t, c, sh, s) && forall b :: b in t ==> b in s
    ensures forall b :: b in t ==> Verdict(t, c, sh, b).None?
  {
    hide Verdict;
    forall b | b in t
      ensures Verdict(t, c, sh, b).None?
    {
      assert b in s;
    }
  }

  /** There is one root exactly when one node is filed under no parent. */
  lemma {:induction false} RootsListed(t: Index, f: Forward)
    requires IsForward(t, f)
    ensures OneRoot(t) <==> None in f && |f[None]| == 1
    ensures None in f && |f[None]| == 1 ==> f[None][0] in t && t[f[None][0]].prev.None?
  {
    assert ListsChildren(t, f, None);
    assert None in f && |f[None]| > 1 ==> f[None][0] != f[None][1];
    if OneRoot(t) {
      var root :| root in t && t[root].prev.None? && forall b :: b in t && t[b].prev.None? ==> b == root;
      assert Listed(t, f, root);
      assert forall i :: 0 <= i < |f[None]| ==> f[None][i] == root;
    }
    if None in f && |f[None]| == 1 {
      var root := f[None][0];
      assert root in t && t[root].prev.None?;
      forall b | b in t && t[b].prev.None?
        ensures b == f[None][0]
      {
        assert Listed(t, f, b);
      }
    }
  }
}
