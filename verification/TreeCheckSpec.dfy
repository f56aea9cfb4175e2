/**
 The order in which CheckBlockIndex walks the block index and what it expects of every node. The index is
 any forest of parent links; heights are data to be checked, so depths are counted along the links.
 */
module TreeCheckSpec {
  import opened Wrappers
  import opened Basics

  datatype Info = Info(prev: Option<Hash>, height: int, work: nat, validity: nat, haveData: bool, haveUndo: bool,
                       failed: bool, failedParent: bool, txCount: nat, chainTxCount: nat, sequenceId: int)

  type Index = map<Hash, Info>

  /** Children by parent; the roots are filed under no parent. */
  type Forward = map<Option<Hash>, seq<Hash>>

  /** Depths that grow by one along every link, and a bound on them. */
  datatype Shape = Shape(depth: map<Hash, nat>, limit: nat)

  ghost predicate InForest(t: Index, sh: Shape, b: Hash)
    requires b in t
  {
    b in sh.depth && sh.depth[b] <= sh.limit &&
    match t[b].prev
    case None => sh.depth[b] == 0
    case Some(p) => p in t && p in sh.depth && sh.depth[b] == sh.depth[p] + 1
  }

  ghost predicate Forest(t: Index, sh: Shape) {
    forall b {:trigger InForest(t, sh, b)} :: b in t ==> InForest(t, sh, b)
  }

  /** The list of a parent holds its children, each once. */
  ghost predicate ListsChildren(t: Index, f: Forward, k: Option<Hash>) {
    k in f ==>
      f[k] != [] && (forall i :: 0 <= i < |f[k]| ==> f[k][i] in t && t[f[k][i]].prev == k) &&
      (forall i, j :: 0 <= i < j < |f[k]| ==> f[k][i] != f[k][j])
  }

  ghost predicate Listed(t: Index, f: Forward, b: Hash)
    requires b in t
  {
    t[b].prev in f && b in f[t[b].prev]
  }

  ghost predicate IsForward(t: Index, f: Forward) {
    (forall k {:trigger ListsChildren(t, f, k)} :: ListsChildren(t, f, k)) &&
    (forall b {:trigger Listed(t, f, b)} :: b in t ==> Listed(t, f, b))
  }

  function Kids(f: Forward, k: Option<Hash>): seq<Hash> {
    if k in f then f[k] else []
  }

  /** A well-formed walk: a forest, its child lists, and a node of it. */
  ghost predicate Ready(t: Index, f: Forward, sh: Shape) {
    Forest(t, sh) && IsForward(t, f)
  }

  /* Depth first, parents before children */

  ghost predicate AtDepth(t: Index, sh: Shape, s: seq<Hash>, d: nat) {
    forall i :: 0 <= i < |s| ==> s[i] in t && s[i] in sh.depth && sh.depth[s[i]] == d
  }

  lemma {:induction false} KidsAtDepth(t: Index, f: Forward, sh: Shape, b: Hash)
    requires Ready(t, f, sh) && b in t
    ensures b in sh.depth && sh.depth[b] <= sh.limit && AtDepth(t, sh, Kids(f, Some(b)), sh.depth[b] + 1)
    ensures Kids(f, Some(b)) != [] ==> sh.depth[b] < sh.limit
  {
    assert InForest(t, sh, b) && ListsChildren(t, f, Some(b));
    var s := Kids(f, Some(b));
    forall i | 0 <= i < |s|
      ensures s[i] in t && s[i] in sh.depth && sh.depth[s[i]] == sh.depth[b] + 1 && sh.depth[b] < sh.limit
    {
      assert InForest(t, sh, s[i]);
    }
    if s != [] {
      assert s[0] in t;
    }
  }

  /** The subtree of b. */
  ghost function Pre(t: Index, f: Forward, sh: Shape, b: Hash): seq<Hash>
    requires Ready(t, f, sh) && b in t
    decreases sh.limit + 1 - (if b in sh.depth && sh.depth[b] <= sh.limit then sh.depth[b] else 0), 0
  {
    KidsAtDepth(t, f, sh, b);
    [b] + PreFrom(t, f, sh, Kids(f, Some(b)), 0, sh.depth[b] + 1)
  }

  /** The subtrees of a list of siblings, from the i-th on. */
  ghost function PreFrom(t: Index, f: Forward, sh: Shape, s: seq<Hash>, i: nat, d: nat): seq<Hash>
    requires Ready(t, f, sh) && AtDepth(t, sh, s, d) && i <= |s| && d <= sh.limit + 1
    decreases sh.limit + 1 - d, |s| - i + 1
  {
    if i == |s| then []
    else
      assert InForest(t, sh, s[i]);
      Pre(t, f, sh, s[i]) + PreFrom(t, f, sh, s, i + 1, d)
  }

  function IndexIn(s: seq<Hash>, b: Hash): (i: nat)
    requires b in s
    ensures i < |s| && s[i] == b
  {
    if s[0] == b then 0 else 1 + IndexIn(s[1..], b)
  }

  lemma {:induction false} SiblingsAtDepth(t: Index, f: Forward, sh: Shape, b: Hash)
    requires Ready(t, f, sh) && b in t
    ensures Listed(t, f, b) && b in sh.depth && sh.depth[b] <= sh.limit && AtDepth(t, sh, f[t[b].prev], sh.depth[b])
  {
    assert Listed(t, f, b) && InForest(t, sh, b) && ListsChildren(t, f, t[b].prev);
    var s := f[t[b].prev];
    forall i | 0 <= i < |s|
      ensures s[i] in t && s[i] in sh.depth && sh.depth[s[i]] == sh.depth[b]
    {
      assert InForest(t, sh, s[i]);
    }
  }

  /** What is left once the subtree of b is done: its later siblings' subtrees, then what is left after its parent. */
  ghost function After(t: Index, f: Forward, sh: Shape, b: Hash): seq<Hash>
    requires Ready(t, f, sh) && b in t
    decreases if b in sh.depth then sh.depth[b] else 0
  {
    SiblingsAtDepth(t, f, sh, b);
    assert InForest(t, sh, b);
    var s := f[t[b].prev];
    PreFrom(t, f, sh, s, IndexIn(s, b) + 1, sh.depth[b]) +
    match t[b].prev
    case None => []
    case Some(p) => After(t, f, sh, p)
  }

  /* Every node exactly once */

  /** The ancestor of x at depth d. */
  ghost function UpTo(t: Index, sh: Shape, x: Hash, d: nat): (a: Hash)
    requires Forest(t, sh) && x in t && x in sh.depth && d <= sh.depth[x]
    ensures a in t && a in sh.depth && sh.depth[a] == d
    decreases sh.depth[x]
  {
    assert InForest(t, sh, x);
    if sh.depth[x] == d then x else UpTo(t, sh, t[x].prev.value, d)
  }

  lemma {:induction false} UpToOnce(t: Index, sh: Shape, x: Hash, d: nat)
    requires Forest(t, sh) && x in t && x in sh.depth && d < sh.depth[x]
    ensures t[UpTo(t, sh, x, d + 1)].prev == Some(UpTo(t, sh, x, d))
    decreases sh.depth[x]
  {
    assert InForest(t, sh, x);
    if sh.depth[x] > d + 1 {
      UpToOnce(t, sh, t[x].prev.value, d);
    }
  }

  ghost predicate Below(t: Index, sh: Shape, x: Hash, b: Hash)
    requires Forest(t, sh) && b in t && b in sh.depth
  {
    x in t && x in sh.depth && sh.depth[b] <= sh.depth[x] && UpTo(t, sh, x, sh.depth[b]) == b
  }

  /** A subtree lists what hangs below its root, and nothing else. */
  lemma {:induction false} PreIsBelow(t: Index, f: Forward, sh: Shape, b: Hash, x: Hash)
    requires Ready(t, f, sh) && b in t && b in sh.depth && x in Pre(t, f, sh, b)
    ensures Below(t, sh, x, b)
    decreases sh.limit + 1 - (if sh.depth[b] <= sh.limit then sh.depth[b] else 0), 0
  {
    KidsAtDepth(t, f, sh, b);
    var s := Kids(f, Some(b));
    if x != b {
      var j := PreFromIsBelow(t, f, sh, s, 0, sh.depth[b] + 1, x);
      UpToOnce(t, sh, x, sh.depth[b]);
      assert ListsChildren(t, f, Some(b));
    }
  }

  lemma {:induction false} PreFromIsBelow(t: Index, f: Forward, sh: Shape, s: seq<Hash>, i: nat, d: nat, x: Hash)
    returns (j: nat)
    requires Ready(t, f, sh) && AtDepth(t, sh, s, d) && i <= |s| && d <= sh.limit + 1 && x in PreFrom(t, f, sh, s, i, d)
    ensures i <= j < |s| && Below(t, sh, x, s[j])
    decreases sh.limit + 1 - d, |s| - i + 1
  {
    assert InForest(t, sh, s[i]);
    if x in Pre(t, f, sh, s[i]) {
      PreIsBelow(t, f, sh, s[i], x);
      j := i;
    } else {
      j := PreFromIsBelow(t, f, sh, s, i + 1, d, x);
    }
  }

  ghost predicate NoRepeats(s: seq<Hash>) {
    forall i, j :: 0 <= i < j < |s| ==> s[i] != s[j]
  }

  lemma {:induction false} NoRepeatsJoin(a: seq<Hash>, b: seq<Hash>)
    requires NoRepeats(a) && NoRepeats(b) && forall x :: x in a ==> x !in b
    ensures NoRepeats(a + b)
  {
    forall i, j | 0 <= i < j < |a + b|
      ensures (a + b)[i] != (a + b)[j]
    {
      if i < |a| <= j {
        assert a[i] in a && b[j - |a|] in b;
      }
    }
  }

  lemma {:induction false} PreNoRepeats(t: Index, f: Forward, sh: Shape, b: Hash)
    requires Ready(t, f, sh) && b in t && b in sh.depth
    ensures NoRepeats(Pre(t, f, sh, b))
    decreases sh.limit + 1 - (if sh.depth[b] <= sh.limit then sh.depth[b] else 0), 0
  {
    KidsAtDepth(t, f, sh, b);
    var s := Kids(f, Some(b));
    assert ListsChildren(t, f, Some(b));
    PreFromNoRepeats(t, f, sh, s, 0, sh.depth[b] + 1);
    var rest := PreFrom(t, f, sh, s, 0, sh.depth[b] + 1);
    if b in rest {
      var j := PreFromIsBelow(t, f, sh, s, 0, sh.depth[b] + 1, b);
    }
    NoRepeatsJoin([b], rest);
  }

  lemma {:induction false} PreFromNoRepeats(t: Index, f: Forward, sh: Shape, s: seq<Hash>, i: nat, d: nat)
    requires Ready(t, f, sh) && AtDepth(t, sh, s, d) && i <= |s| && d <= sh.limit + 1 && NoRepeats(s)
    ensures NoRepeats(PreFrom(t, f, sh, s, i, d))
    decreases sh.limit + 1 - d, |s| - i + 1
  {
    if i < |s| {
      assert InForest(t, sh, s[i]);
      PreNoRepeats(t, f, sh, s[i]);
      PreFromNoRepeats(t, f, sh, s, i + 1, d);
      forall x | x in Pre(t, f, sh, s[i])
        ensures x !in PreFrom(t, f, sh, s, i + 1, d)
      {
        PreIsBelow(t, f, sh, s[i], x);
        if x in PreFrom(t, f, sh, s, i + 1, d) {
          var j := PreFromIsBelow(t, f, sh, s, i + 1, d, x);
        }
      }
      NoRepeatsJoin(Pre(t, f, sh, s[i]), PreFrom(t, f, sh, s, i + 1, d));
    }
  }

  /** A subtree holds the children of all its nodes. */
  lemma {:induction false} PreHoldsKids(t: Index, f: Forward, sh: Shape, b: Hash, p: Hash, x: Hash)
    requires Ready(t, f, sh) && b in t && b in sh.depth && p in Pre(t, f, sh, b) && x in Kids(f, Some(p))
    ensures x in Pre(t, f, sh, b)
    decreases sh.limit + 1 - (if sh.depth[b] <= sh.limit then sh.depth[b] else 0), 0
  {
    KidsAtDepth(t, f, sh, b);
    var s := Kids(f, Some(b));
    if p == b {
      PreFromHolds(t, f, sh, s, 0, sh.depth[b] + 1, IndexIn(s, x));
    } else {
      PreFromHoldsKids(t, f, sh, s, 0, sh.depth[b] + 1, p, x);
    }
  }

  lemma {:induction false} PreFromHolds(t: Index, f: Forward, sh: Shape, s: seq<Hash>, i: nat, d: nat, j: nat)
    requires Ready(t, f, sh) && AtDepth(t, sh, s, d) && i <= j < |s| && d <= sh.limit + 1
    ensures s[j] in PreFrom(t, f, sh, s, i, d)
    decreases |s| - i
  {
    assert InForest(t, sh, s[i]);
    if i == j {
      assert Pre(t, f, sh, s[i])[0] == s[i];
    } else {
      PreFromHolds(t, f, sh, s, i + 1, d, j);
    }
  }

  lemma {:induction false} PreFromHoldsKids(t: Index, f: Forward, sh: Shape, s: seq<Hash>, i: nat, d: nat, p: Hash,
      x: Hash)
    requires Ready(t, f, sh) && AtDepth(t, sh, s, d) && i <= |s| && d <= sh.limit + 1
    requires p in PreFrom(t, f, sh, s, i, d) && x in Kids(f, Some(p))
    ensures x in PreFrom(t, f, sh, s, i, d)
    decreases sh.limit + 1 - d, |s| - i + 1
  {
    assert InForest(t, sh, s[i]);
    if p in Pre(t, f, sh, s[i]) {
      PreHoldsKids(t, f, sh, s[i], p, x);
    } else {
      PreFromHoldsKids(t, f, sh, s, i + 1, d, p, x);
    }
  }

  lemma {:induction false} AllAreReached(t: Index, f: Forward, sh: Shape, root: Hash, x: Hash)
    requires Ready(t, f, sh) && Kids(f, None) == [root] && root in t && x in t && x in sh.depth
    ensures x in Pre(t, f, sh, root)
    decreases sh.depth[x]
  {
    assert InForest(t, sh, x) && Listed(t, f, x) && InForest(t, sh, root);
    if t[x].prev.Some? {
      AllAreReached(t, f, sh, root, t[x].prev.value);
      PreHoldsKids(t, f, sh, root, t[x].prev.value, x);
    } else {
      assert Pre(t, f, sh, root)[0] == root;
    }
  }

  lemma {:induction false} CountOnce(s: seq<Hash>, keys: set<Hash>)
    requires NoRepeats(s) && forall x :: x in s <==> x in keys
    ensures |s| == |keys|
  {
    if s != [] {
      var last := s[|s| - 1];
      var rest := s[..|s| - 1];
      assert s == rest + [last];
      CountOnce(rest, keys - {last});
    }
  }

  /** From a single root the walk lists every index of the map exactly once. */
  lemma {:induction false} WalkIsComplete(t: Index, f: Forward, sh: Shape, root: Hash)
    requires Ready(t, f, sh) && Kids(f, None) == [root] && root in t
    ensures NoRepeats(Pre(t, f, sh, root)) && (forall x :: x in Pre(t, f, sh, root) <==> x in t)
    ensures |Pre(t, f, sh, root)| == |t|
  {
    assert InForest(t, sh, root);
    PreNoRepeats(t, f, sh, root);
    forall x
      ensures x in Pre(t, f, sh, root) <==> x in t
    {
      if x in t {
        assert InForest(t, sh, x);
        AllAreReached(t, f, sh, root, x);
      } else if x in Pre(t, f, sh, root) {
        PreIsBelow(t, f, sh, root, x);
      }
    }
    CountOnce(Pre(t, f, sh, root), t.Keys);
  }

  /* What is expected of a node */

  datatype Property = Invalid | Missing | NeverProcessed | NotTreeValid | NotTransactionsValid | NotChainValid | NotScriptsValid

  const VALID_TREE: nat := 2
  const VALID_TRANSACTIONS: nat := 3
  const VALID_CHAIN: nat := 4
  const VALID_SCRIPTS: nat := 5

  predicate Has(p: Property, i: Info) {
    match p
    case Invalid => i.failed
    case Missing => !i.haveData
    case NeverProcessed => i.txCount == 0
    case NotTreeValid => i.prev.Some? && i.validity < VALID_TREE
    case NotTransactionsValid => i.prev.Some? && i.validity < VALID_TRANSACTIONS
    case NotChainValid => i.prev.Some? && i.validity < VALID_CHAIN
    case NotScriptsValid => i.prev.Some? && i.validity < VALID_SCRIPTS
  }

  /** The topmost node with a property on the path from the root to b. */
  ghost function FirstOn(t: Index, sh: Shape, p: Property, b: Hash): Option<Hash>
    requires Forest(t, sh) && b in t
    decreases if b in sh.depth then sh.depth[b] else 0
  {
    assert InForest(t, sh, b);
    var above := if t[b].prev.None? then None else FirstOn(t, sh, p, t[b].prev.value);
    if above.Some? then above else if Has(p, t[b]) then Some(b) else None
  }

  /** FirstOn in terms of ancestors. */
  lemma {:induction false} FirstOnMeaning(t: Index, sh: Shape, p: Property, b: Hash)
    requires Forest(t, sh) && b in t && b in sh.depth
    ensures var f := FirstOn(t, sh, p, b);
            f.Some? ==> f.value in t && f.value in sh.depth && Below(t, sh, b, f.value) && Has(p, t[f.value])
    ensures forall d :: 0 <= d <= sh.depth[b] && Has(p, t[UpTo(t, sh, b, d)]) ==>
              var f := FirstOn(t, sh, p, b); f.Some? && f.value in sh.depth && sh.depth[f.value] <= d
    decreases sh.depth[b]
  {
    assert InForest(t, sh, b);
    if t[b].prev.Some? {
      FirstOnMeaning(t, sh, p, t[b].prev.value);
    }
  }

  /** The seven pindexFirst variables. */
  datatype Firsts = Firsts(invalid: Option<Hash>, missing: Option<Hash>, neverProcessed: Option<Hash>,
                           notTreeValid: Option<Hash>, notTransactionsValid: Option<Hash>,
                           notChainValid: Option<Hash>, notScriptsValid: Option<Hash>)

  const NONE_YET: Firsts := Firsts(None, None, None, None, None, None, None)

  ghost function FirstsOn(t: Index, sh: Shape, b: Option<Hash>): Firsts
    requires Forest(t, sh) && (b.Some? ==> b.value in t)
  {
    if b.None? then NONE_YET
    else
      Firsts(FirstOn(t, sh, Invalid, b.value), FirstOn(t, sh, Missing, b.value), FirstOn(t, sh, NeverProcessed, b.value),
             FirstOn(t, sh, NotTreeValid, b.value), FirstOn(t, sh, NotTransactionsValid, b.value),
             FirstOn(t, sh, NotChainValid, b.value), FirstOn(t, sh, NotScriptsValid, b.value))
  }

  datatype Failure =
    | NoActiveChain | GenesisCount | GenesisHash | NotActiveGenesis | SequenceWithoutChainTx | DataWithoutTx
    | MissingNotNeverProcessed | PrunedDataWithoutTx | UndoWithoutData | TransactionsNotTx | NeverProcessedNotChainTx
    | NotTransactionsNotChainTx | WrongHeight | WorkDecreases | NotTree | ChainOverNotChain | ScriptsOverNotScripts
    | InvalidWithoutCause | UnlinkedWrongPrev | ShouldBeUnlinked | UnlinkedWithoutData | UnlinkedNothingMissing
    | MustHavePruned | WrongNodeCount

  /** Everything outside the tree the check looks at. */
  datatype Context = Context(genesisHash: Hash, activeGenesis: Option<Hash>, hasActiveChain: bool, havePruned: bool,
                             unlinked: Forward)

  ghost predicate UnlinkedKnown(t: Index, c: Context) {
    forall k, i :: k in c.unlinked && 0 <= i < |c.unlinked[k]| ==> c.unlinked[k][i] in t
  }

  /** Looking for b among the unlinked blocks of its parent; None is an entry with another parent met before it. */
  function FindUnlinked(t: Index, s: seq<Hash>, b: Hash, i: nat): Option<bool>
    requires b in t && i <= |s| && forall j :: 0 <= j < |s| ==> s[j] in t
    decreases |s| - i
  {
    if i == |s| then Some(false)
    else if t[s[i]].prev != t[b].prev then None
    else if s[i] == b then Some(true)
    else FindUnlinked(t, s, b, i + 1)
  }

  /** The checks that use only the node itself, its parent and the walk's variables, up to the unlinked blocks. */
  function EarlyFailure(t: Index, c: Context, b: Hash, first: Firsts, depth: int): Option<Failure>
    requires b in t && (t[b].prev.Some? ==> t[b].prev.value in t)
  {
    var i := t[b];
    if i.prev.None? && b != c.genesisHash then Some(GenesisHash)
    else if i.prev.None? && c.activeGenesis != Some(b) then Some(NotActiveGenesis)
    else if i.chainTxCount == 0 && i.sequenceId > 0 then Some(SequenceWithoutChainTx)
    else if !c.havePruned && i.haveData != (i.txCount > 0) then Some(DataWithoutTx)
    else if !c.havePruned && first.missing != first.neverProcessed then Some(MissingNotNeverProcessed)
    else if c.havePruned && i.haveData && i.txCount == 0 then Some(PrunedDataWithoutTx)
    else if i.haveUndo && !i.haveData then Some(UndoWithoutData)
    else if (i.validity >= VALID_TRANSACTIONS) != (i.txCount > 0) then Some(TransactionsNotTx)
    else if first.neverProcessed.Some? != (i.chainTxCount == 0) then Some(NeverProcessedNotChainTx)
    else if first.notTransactionsValid.Some? != (i.chainTxCount == 0) then Some(NotTransactionsNotChainTx)
    else if i.height != depth then Some(WrongHeight)
    else if i.prev.Some? && i.work < t[i.prev.value].work then Some(WorkDecreases)
    else if first.notTreeValid.Some? then Some(NotTree)
    else if i.validity >= VALID_CHAIN && first.notChainValid.Some? then Some(ChainOverNotChain)
    else if i.validity >= VALID_SCRIPTS && first.notScriptsValid.Some? then Some(ScriptsOverNotScripts)
    else if first.invalid.None? && (i.failed || i.failedParent) then Some(InvalidWithoutCause)
    else None
  }

  function LateFailure(t: Index, c: Context, b: Hash, first: Firsts): Option<Failure>
    requires b in t && forall j :: 0 <= j < |Kids(c.unlinked, t[b].prev)| ==> Kids(c.unlinked, t[b].prev)[j] in t
  {
    var i, found := t[b], FindUnlinked(t, Kids(c.unlinked, t[b].prev), b, 0);
    if found.None? then Some(UnlinkedWrongPrev)
    else if i.prev.Some? && i.haveData && first.neverProcessed.Some? && first.invalid.None? && !found.value
    then Some(ShouldBeUnlinked)
    else if !i.haveData && found.value then Some(UnlinkedWithoutData)
    else if first.missing.None? && found.value then Some(UnlinkedNothingMissing)
    else if i.prev.Some? && i.haveData && first.neverProcessed.None? && first.missing.Some? && !c.havePruned
    then Some(MustHavePruned)
    else None
  }

  function NodeFailure(t: Index, c: Context, b: Hash, first: Firsts, depth: int): Option<Failure>
    requires b in t && (t[b].prev.Some? ==> t[b].prev.value in t)
    requires forall j :: 0 <= j < |Kids(c.unlinked, t[b].prev)| ==> Kids(c.unlinked, t[b].prev)[j] in t
  {
    var early := EarlyFailure(t, c, b, first, depth);
    if early.Some? then early else LateFailure(t, c, b, first)
  }

  /** The node's verdict with the variables meaning what they should. */
  ghost function Verdict(t: Index, c: Context, sh: Shape, b: Hash): Option<Failure>
    requires Forest(t, sh) && UnlinkedKnown(t, c) && b in t
  {
    assert InForest(t, sh, b);
    NodeFailure(t, c, b, FirstsOn(t, sh, Some(b)), sh.depth[b])
  }

  /** Some property does not occur anywhere on the path to b. */
  ghost predicate NoneOnPath(t: Index, sh: Shape, p: Property, b: Hash)
    requires Forest(t, sh) && b in t && b in sh.depth
  {
    forall d :: 0 <= d <= sh.depth[b] ==> !Has(p, t[UpTo(t, sh, b, d)])
  }

  lemma {:induction false} FirstIsNone(t: Index, sh: Shape, p: Property, b: Hash)
    requires Forest(t, sh) && b in t && b in sh.depth
    ensures FirstOn(t, sh, p, b).None? <==> NoneOnPath(t, sh, p, b)
  {
    FirstOnMeaning(t, sh, p, b);
    var f := FirstOn(t, sh, p, b);
    if f.Some? {
      assert UpTo(t, sh, b, sh.depth[f.value]) == f.value;
    }
  }

  /** Going down the path to b, the two properties are first met at the same node, or neither is. */
  ghost predicate MeetTogether(t: Index, sh: Shape, p: Property, q: Property, b: Hash)
    requires Forest(t, sh) && b in t && b in sh.depth
  {
    forall d :: 0 <= d <= sh.depth[b] ==>
                  var a := UpTo(t, sh, b, d);
                  a in sh.depth && (NoneOnPath(t, sh, p, a) <==> NoneOnPath(t, sh, q, a))
  }

  /** On the way to its parent a node's path is its parent's. */
  lemma {:induction false} MeetStep(t: Index, sh: Shape, p: Property, q: Property, b: Hash)
    requires Forest(t, sh) && b in t && b in sh.depth && t[b].prev.Some?
    ensures InForest(t, sh, b)
    ensures MeetTogether(t, sh, p, q, b) <==>
            MeetTogether(t, sh, p, q, t[b].prev.value) && (NoneOnPath(t, sh, p, b) <==> NoneOnPath(t, sh, q, b))
  {
    hide NoneOnPath;
    assert InForest(t, sh, b);
    var a, n := t[b].prev.value, sh.depth[b];
    assert UpTo(t, sh, b, n) == b;
    forall d | 0 <= d < n
      ensures UpTo(t, sh, b, d) == UpTo(t, sh, a, d)
    {
    }
    if MeetTogether(t, sh, p, q, b) {
      assert NoneOnPath(t, sh, p, UpTo(t, sh, b, n)) <==> NoneOnPath(t, sh, q, UpTo(t, sh, b, n));
    }
  }

  lemma {:induction false} SameFirst(t: Index, sh: Shape, p: Property, q: Property, b: Hash)
    requires Forest(t, sh) && b in t && b in sh.depth
    ensures FirstOn(t, sh, p, b) == FirstOn(t, sh, q, b) <==> MeetTogether(t, sh, p, q, b)
    decreases sh.depth[b]
  {
    hide NoneOnPath, MeetTogether;
    assert InForest(t, sh, b);
    FirstIsNone(t, sh, p, b);
    FirstIsNone(t, sh, q, b);
    if t[b].prev.Some? {
      var a := t[b].prev.value;
      SameFirst(t, sh, p, q, a);
      MeetStep(t, sh, p, q, b);
      FirstIsAbove(t, sh, p, b);
      FirstIsAbove(t, sh, q, b);
    } else {
      MeetAtRoot(t, sh, p, q, b);
    }
  }

  lemma {:induction false} FirstIsAbove(t: Index, sh: Shape, p: Property, b: Hash)
    requires Forest(t, sh) && b in t && b in sh.depth && t[b].prev.Some?
    ensures InForest(t, sh, b)
    ensures FirstOn(t, sh, p, t[b].prev.value) != Some(b)
  {
    assert InForest(t, sh, b);
    FirstOnMeaning(t, sh, p, t[b].prev.value);
  }

  lemma {:induction false} MeetAtRoot(t: Index, sh: Shape, p: Property, q: Property, b: Hash)
    requires Forest(t, sh) && b in t && b in sh.depth && t[b].prev.None?
    ensures MeetTogether(t, sh, p, q, b) <==> (NoneOnPath(t, sh, p, b) <==> NoneOnPath(t, sh, q, b))
  {
    hide NoneOnPath;
    assert InForest(t, sh, b);
    assert UpTo(t, sh, b, 0) == b;
  }

  /** b is listed among the unlinked blocks of its parent. */
  predicate IsUnlinked(t: Index, c: Context, b: Hash)
    requires b in t
  {
    b in Kids(c.unlinked, t[b].prev)
  }

  /** The blocks listed there, up to b if it is listed, are children of that parent. */
  ghost predicate ListTidy(t: Index, c: Context, b: Hash)
    requires b in t && UnlinkedKnown(t, c)
  {
    var s := Kids(c.unlinked, t[b].prev);
    forall i :: 0 <= i < |s| && b !in s[..i] ==> s[i] in t && t[s[i]].prev == t[b].prev
  }

  lemma {:induction false} FindUnlinkedMeaning(t: Index, s: seq<Hash>, b: Hash, i: nat)
    requires b in t && i <= |s| && forall j :: 0 <= j < |s| ==> s[j] in t
    ensures FindUnlinked(t, s, b, i).Some? <==>
            forall j :: i <= j < |s| && b !in s[i..j] ==> t[s[j]].prev == t[b].prev
    ensures FindUnlinked(t, s, b, i).Some? ==> (FindUnlinked(t, s, b, i).value <==> b in s[i..])
    decreases |s| - i
  {
    if i < |s| {
      FindUnlinkedMeaning(t, s, b, i + 1);
      assert s[i..i] == [];
      assert s[i..] == [s[i]] + s[i + 1..];
      forall j | i < j < |s|
        ensures s[i..j] == [s[i]] + s[i + 1..j]
      {
      }
    }
  }

  lemma {:induction false} UnlinkedMeaning(t: Index, c: Context, b: Hash)
    requires b in t && UnlinkedKnown(t, c)
    ensures var s := Kids(c.unlinked, t[b].prev);
            (forall j :: 0 <= j < |s| ==> s[j] in t) &&
            (FindUnlinked(t, s, b, 0).Some? <==> ListTidy(t, c, b)) &&
            (FindUnlinked(t, s, b, 0).Some? ==> (FindUnlinked(t, s, b, 0).value <==> IsUnlinked(t, c, b)))
  {
    var s := Kids(c.unlinked, t[b].prev);
    FindUnlinkedMeaning(t, s, b, 0);
    assert s[0..] == s;
    forall i | 0 <= i < |s|
      ensures s[0..i] == s[..i]
    {
    }
  }

  /** What must hold of the node itself: its counts, its data and undo, its height and its work. */
  ghost predicate SoundNode(t: Index, c: Context, sh: Shape, b: Hash)
    requires Forest(t, sh) && b in t && b in sh.depth
  {
    assert InForest(t, sh, b);
    var i := t[b];
    (i.prev.None? ==> b == c.genesisHash && c.activeGenesis == Some(b)) &&
    (i.sequenceId > 0 ==> i.chainTxCount != 0) &&
    (if c.havePruned then i.haveData ==> i.txCount != 0 else i.haveData <==> i.txCount > 0) &&
    (i.haveUndo ==> i.haveData) && (i.validity >= VALID_TRANSACTIONS <==> i.txCount > 0) &&
    i.height == sh.depth[b] && (i.prev.Some? ==> i.work >= t[i.prev.value].work)
  }

  /** What must hold between the node and its ancestors. */
  ghost predicate SoundPath(t: Index, c: Context, sh: Shape, b: Hash)
    requires Forest(t, sh) && b in t && b in sh.depth
  {
    var i := t[b];
    (i.chainTxCount != 0 <==> NoneOnPath(t, sh, NeverProcessed, b)) &&
    (i.chainTxCount != 0 <==> NoneOnPath(t, sh, NotTransactionsValid, b)) &&
    NoneOnPath(t, sh, NotTreeValid, b) &&
    (i.validity >= VALID_CHAIN ==> NoneOnPath(t, sh, NotChainValid, b)) &&
    (i.validity >= VALID_SCRIPTS ==> NoneOnPath(t, sh, NotScriptsValid, b)) &&
    (i.failed || i.failedParent ==> !NoneOnPath(t, sh, Invalid, b)) &&
    (!c.havePruned ==> MeetTogether(t, sh, Missing, NeverProcessed, b))
  }

  /** What must hold of the unlinked blocks. */
  ghost predicate SoundUnlinked(t: Index, c: Context, sh: Shape, b: Hash)
    requires Forest(t, sh) && b in t && b in sh.depth && UnlinkedKnown(t, c)
  {
    var i := t[b];
    ListTidy(t, c, b) &&
    (IsUnlinked(t, c, b) ==> i.haveData && !NoneOnPath(t, sh, Missing, b)) &&
    (i.prev.Some? && i.haveData && !NoneOnPath(t, sh, NeverProcessed, b) && NoneOnPath(t, sh, Invalid, b) ==>
       IsUnlinked(t, c, b)) &&
    (i.prev.Some? && i.haveData && NoneOnPath(t, sh, NeverProcessed, b) && !NoneOnPath(t, sh, Missing, b) ==>
       c.havePruned)
  }

  /** The verdict on b is clean if and only if b is sound, by itself, towards its ancestors and among the unlinked blocks. */
  lemma {:induction false} CleanVerdict(t: Index, c: Context, sh: Shape, b: Hash)
    requires Forest(t, sh) && UnlinkedKnown(t, c) && b in t && b in sh.depth
    ensures Verdict(t, c, sh, b).None? <==>
            SoundNode(t, c, sh, b) && SoundPath(t, c, sh, b) && SoundUnlinked(t, c, sh, b)
  {
    hide NoneOnPath, FirstOn, MeetTogether, ListTidy, IsUnlinked, FindUnlinked;
    assert InForest(t, sh, b);
    FirstIsNone(t, sh, NeverProcessed, b);
    FirstIsNone(t, sh, NotTransactionsValid, b);
    FirstIsNone(t, sh, NotTreeValid, b);
    FirstIsNone(t, sh, NotChainValid, b);
    FirstIsNone(t, sh, NotScriptsValid, b);
    FirstIsNone(t, sh, Invalid, b);
    FirstIsNone(t, sh, Missing, b);
    SameFirst(t, sh, Missing, NeverProcessed, b);
    UnlinkedMeaning(t, c, b);
  }
}
