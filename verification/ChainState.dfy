/** The active chain as the node moves it: logic/lchain and the chain object of model/chain. */
module ChainState {
  import opened Wrappers
  import opened Basics
  import opened Utxo
  import opened BlockApply
  import opened BlockEffect
  import opened BlockUndo
  import opened BlockCheck
  import opened BlockAccept
  import opened BlockTree
  import opened Supply
  import opened ChainSpec

  datatype ChainError =
    | BadBlock(check: Option<CheckError>)
    | BadTransactions(apply: BlockError)
    | DisconnectTipUndoFailed(result: DisconnectResult)

  /** What can happen to the chain: activation, disconnecting the tip, a new header, a new candidate, a block declared invalid. */
  datatype Op =
    | Activate(shutdown: bool)
    | Disconnect
    | Arrival(header: Header)
    | Candidate(b: Hash)
    | Invalidate(b: Hash)

  /** The tree after the headers among the first i operations. */
  ghost function TreeAfter(t: Tree, ops: seq<Op>, i: nat): (u: Tree)
    requires WellBuilt(t) && i <= |ops|
    ensures WellBuilt(u)
  {
    if i == 0 then t
    else
      var u := TreeAfter(t, ops, i - 1);
      if ops[i - 1].Arrival? then Grown(u, ops[i - 1].header) else u
  }

  /** The block of every header that arrives is sane in the tree it arrives in. */
  ghost predicate SaneArrivals(w: World, t: Tree, ops: seq<Op>)
    requires WellBuilt(t)
  {
    forall i :: 0 <= i < |ops| && ops[i].Arrival? && ops[i].header.hash in TreeAfter(t, ops, i + 1) ==>
                  SaneAt(w, TreeAfter(t, ops, i + 1), ops[i].header.hash)
  }

  /* Steps of the invariant */

  lemma {:induction false} MoreRecords(t: Tree, undo: UndoStore, more: UndoStore, b: Hash)
    requires Linked(t) && b in t && AllRecorded(t, undo, b) && undo.Keys <= more.Keys
    ensures AllRecorded(t, more, b)
    decreases t[b].height
  {
    assert LinkedAt(t, b);
    if t[b].prev.Some? {
      MoreRecords(t, undo, more, t[b].prev.value);
    }
  }

  lemma {:induction false} ConnectedInvariant(w: World, t: Tree, b: Hash, active: seq<Hash>, coins: Coins,
      undo: UndoStore, more: UndoStore)
    requires GoodTree(w, t) && b in t && t[b].prev.Some? && LinkedAt(t, b)
    requires ChainInvariant(w, t, t[b].prev.value, active, coins, t[b].prev.value, undo)
    requires AllConnect(w, t, b) && RecordsRight(w, t, more) && undo.Keys <= more.Keys && b in more
    ensures ChainInvariant(w, t, b, Path(t, b), Replay(w, t, b), b, more)
  {
    hide Replay, RecordsRight, AllConnect, Path;
    MoreRecords(t, undo, more, t[b].prev.value);
  }

  lemma {:induction false} DisconnectedInvariant(w: World, t: Tree, b: Hash, active: seq<Hash>, coins: Coins,
      undo: UndoStore)
    requires GoodTree(w, t) && ChainInvariant(w, t, b, active, coins, b, undo) && t[b].prev.Some?
    ensures LinkedAt(t, b)
    ensures var p := t[b].prev.value; ChainInvariant(w, t, p, Path(t, p), ParentCoins(w, t, b), p, undo)
  {
    assert LinkedAt(t, b);
    hide Replay, RecordsRight, Path;
  }

  lemma {:induction false} InvariantFacts(w: World, t: Tree, tip: Hash, active: seq<Hash>, coins: Coins, best: Hash,
      undo: UndoStore)
    requires GoodTree(w, t) && ChainInvariant(w, t, tip, active, coins, best, undo)
    ensures tip in t && best == tip && IsActiveList(t, active)
  {
  }

  lemma {:induction false} FlushEmpty(c: Coins)
    ensures Flushed(c, map[]) == c
  {
  }

  /** The tip is genesis, or its stored record takes the coins back to its parent's. */
  lemma {:induction false} TipHasRecord(w: World, t: Tree, b: Hash, active: seq<Hash>, coins: Coins, undo: UndoStore)
    requires GoodTree(w, t) && ChainInvariant(w, t, b, active, coins, b, undo)
    ensures b == w.genesis <==> b !in undo
    ensures b in undo ==>
              t[b].prev.Some? && LinkedAt(t, b) && UnspentRecords(undo[b]) &&
              var r := Undo(coins, w.txsOf(b), undo[b], t[b].height);
              r.0 == DisconnectOk && Flushed(coins, r.1) == ParentCoins(w, t, b)
  {
    hide AllConnect, Undo, Flushed, UnspentRecords, UndoRecord, Replay;
    assert RecordRight(w, t, undo, b) && LinkedAt(t, b);
    if b in undo {
      UndoneIsParent(w, t, b);
    }
  }

  lemma {:induction false} TombstonesMeaning(base: Coins, v: View)
    requires TombstonesBelow(base, v)
    ensures forall o :: o in v && v[o].isDirty && !v[o].isFresh ==> o in base
  {
  }

  lemma {:induction false} NewRecordRight(w: World, t: Tree, undo: UndoStore, b: Hash)
    requires Linked(t) && RecordsRight(w, t, undo) && b in t && t[b].prev.Some?
    ensures RecordsRight(w, t, undo[b := UndoRecord(w, t, b)])
  {
    hide UndoRecord;
    var more := undo[b := UndoRecord(w, t, b)];
    forall c
      ensures RecordRight(w, t, more, c)
    {
      assert RecordRight(w, t, undo, c);
    }
  }

  /* Candidates */

  ghost predicate ByWork(t: Tree, s: seq<Hash>)
    requires forall i :: 0 <= i < |s| ==> s[i] in t
  {
    forall i, j :: 0 <= i <= j < |s| ==> t[s[i]].work <= t[s[j]].work
  }

  /** The stable sort by work, as inserting one block after another behind those of equal work. */
  function Inserted(t: Tree, s: seq<Hash>, b: Hash): (r: seq<Hash>)
    requires b in t && forall i :: 0 <= i < |s| ==> s[i] in t
    ensures |r| == |s| + 1 && forall i :: 0 <= i < |r| ==> r[i] in t
  {
    if s == [] || t[s[|s| - 1]].work <= t[b].work then s + [b] else Inserted(t, s[..|s| - 1], b) + [s[|s| - 1]]
  }

  function SortedByWork(t: Tree, s: seq<Hash>): (r: seq<Hash>)
    requires forall i :: 0 <= i < |s| ==> s[i] in t
    ensures |r| == |s| && forall i :: 0 <= i < |r| ==> r[i] in t
  {
    if s == [] then [] else Inserted(t, SortedByWork(t, s[..|s| - 1]), s[|s| - 1])
  }

  lemma {:induction false} ByWorkSnoc(t: Tree, s: seq<Hash>, b: Hash)
    requires b in t && (forall i :: 0 <= i < |s| ==> s[i] in t) && ByWork(t, s)
    requires s != [] ==> t[s[|s| - 1]].work <= t[b].work
    ensures ByWork(t, s + [b])
  {
  }

  lemma {:induction false} ByWorkPrefix(t: Tree, s: seq<Hash>)
    requires s != [] && (forall i :: 0 <= i < |s| ==> s[i] in t) && ByWork(t, s)
    ensures ByWork(t, s[..|s| - 1]) && s == s[..|s| - 1] + [s[|s| - 1]]
    ensures |s| > 1 ==> t[s[|s| - 2]].work <= t[s[|s| - 1]].work
  {
  }

  lemma {:induction false} InsertedByWork(t: Tree, s: seq<Hash>, b: Hash)
    requires b in t && (forall i :: 0 <= i < |s| ==> s[i] in t) && ByWork(t, s)
    ensures ByWork(t, Inserted(t, s, b)) && multiset(Inserted(t, s, b)) == multiset(s) + multiset{b}
    ensures s != [] ==> var r := Inserted(t, s, b); r[|s|] == s[|s| - 1] || r[|s|] == b
  {
    hide ByWork;
    if s == [] || t[s[|s| - 1]].work <= t[b].work {
      ByWorkSnoc(t, s, b);
    } else {
      ByWorkPrefix(t, s);
      var rest := s[..|s| - 1];
      InsertedByWork(t, rest, b);
      ByWorkSnoc(t, Inserted(t, rest, b), s[|s| - 1]);
    }
  }

  /** The sort sorts and keeps the candidates. */
  lemma {:induction false} SortedByWorkSorts(t: Tree, s: seq<Hash>)
    requires forall i :: 0 <= i < |s| ==> s[i] in t
    ensures ByWork(t, SortedByWork(t, s)) && multiset(SortedByWork(t, s)) == multiset(s)
  {
    if s != [] {
      var rest := s[..|s| - 1];
      SortedByWorkSorts(t, rest);
      InsertedByWork(t, SortedByWork(t, rest), s[|s| - 1]);
      assert s == rest + [s[|s| - 1]];
    }
  }

  function Without(s: seq<Hash>, b: Hash): seq<Hash> {
    if s == [] then [] else if s[0] == b then s[1..] else [s[0]] + Without(s[1..], b)
  }

  lemma {:induction false} ByWorkTail(t: Tree, s: seq<Hash>)
    requires s != [] && (forall i :: 0 <= i < |s| ==> s[i] in t) && ByWork(t, s)
    ensures ByWork(t, s[1..]) && forall b :: b in s ==> t[s[0]].work <= t[b].work
  {
  }

  lemma {:induction false} ByWorkCons(t: Tree, b: Hash, s: seq<Hash>)
    requires b in t && (forall i :: 0 <= i < |s| ==> s[i] in t) && ByWork(t, s)
    requires forall i :: 0 <= i < |s| ==> t[b].work <= t[s[i]].work
    ensures ByWork(t, [b] + s)
  {
  }

  /** Removing a candidate keeps the others. */
  lemma {:induction false} WithoutKeeps(s: seq<Hash>, b: Hash)
    ensures multiset(Without(s, b)) == multiset(s) - multiset{b}
    ensures forall i :: 0 <= i < |Without(s, b)| ==> Without(s, b)[i] in s
  {
    if s != [] {
      assert s == [s[0]] + s[1..];
      if s[0] != b {
        WithoutKeeps(s[1..], b);
      }
    }
  }

  /** ... and their order. */
  lemma {:induction false} WithoutByWork(t: Tree, s: seq<Hash>, b: Hash)
    requires (forall i :: 0 <= i < |s| ==> s[i] in t) && ByWork(t, s)
    ensures (forall i :: 0 <= i < |Without(s, b)| ==> Without(s, b)[i] in t) && ByWork(t, Without(s, b))
  {
    WithoutKeeps(s, b);
    if s != [] {
      hide ByWork;
      ByWorkTail(t, s);
      if s[0] != b {
        WithoutKeeps(s[1..], b);
        WithoutByWork(t, s[1..], b);
        ByWorkCons(t, s[0], Without(s[1..], b));
      }
    }
  }

  /* Forks */

  /** The block of a chain at a height is the one listed there. */
  lemma {:induction false} ActiveAt(t: Tree, tip: Hash, b: Hash)
    requires Linked(t) && tip in t && b in t
    ensures Ancestor(t, tip, t[b].height) == Some(b) <==> t[b].height < |Path(t, tip)| && Path(t, tip)[t[b].height] == b
  {
    if t[b].height <= t[tip].height {
      PathAt(t, tip, t[b].height);
    }
  }

  /** At height h the paths of a and b differ, or one of them has ended. */
  ghost predicate Apart(t: Tree, a: Hash, b: Hash, h: nat)
    requires Linked(t) && a in t && b in t
  {
    Ancestor(t, a, h).None? || Ancestor(t, a, h) != Ancestor(t, b, h)
  }

  /** f is the last block the paths of tip and b have in common. */
  ghost predicate IsFork(t: Tree, tip: Hash, b: Hash, f: Hash)
    requires Linked(t) && tip in t && b in t
  {
    f in t && Ancestor(t, b, t[f].height) == Some(f) && Ancestor(t, tip, t[f].height) == Some(f) &&
    forall h: nat {:trigger Apart(t, b, tip, h)} :: t[f].height < h ==> Apart(t, b, tip, h)
  }

  ghost predicate IsActiveList(t: Tree, active: seq<Hash>)
    requires Linked(t)
  {
    active != [] ==> active[|active| - 1] in t && active == Path(t, active[|active| - 1])
  }

  /** Where two paths meet they are the same from there down. */
  lemma {:induction false} MeetingPaths(t: Tree, a: Hash, b: Hash, h: nat)
    requires Linked(t) && a in t && b in t && h <= t[a].height && h <= t[b].height && Path(t, a)[h] == Path(t, b)[h]
    ensures Path(t, a)[..h + 1] == Path(t, b)[..h + 1]
  {
    PathAt(t, a, h);
    PathAt(t, b, h);
    PathPrefix(t, a, h);
    PathPrefix(t, b, h);
  }

  /** The blocks on the way from target down, the highest first. */
  ghost predicate OnTheWay(t: Tree, mostWork: Hash, target: nat, s: seq<Hash>)
    requires Linked(t) && mostWork in t
  {
    forall i {:trigger s[i]} :: 0 <= i < |s| ==> Ancestor(t, mostWork, target - i) == Some(s[i])
  }

  lemma {:induction false} NextOnTheWay(t: Tree, b: Hash, h: nat)
    requires Linked(t) && b in t && h <= t[b].height
    ensures var a := Ancestor(t, b, h).value; LinkedAt(t, a) && t[a].prev == Ancestor(t, b, h - 1)
  {
    var a := Ancestor(t, b, h).value;
    assert LinkedAt(t, a);
    AncestorOfAncestor(t, b, h, h - 1);
    if h > 0 {
      AncestorOfParent(t, a, h - 1);
      AncestorOfSelf(t, t[a].prev.value);
    }
  }

  lemma {:induction false} AboveIsNotRoot(w: World, t: Tree, b: Hash, fork: Hash)
    requires Linked(t) && SingleRooted(w, t) && b in t && fork in t && b != fork
    requires Ancestor(t, b, t[fork].height) == Some(fork)
    ensures b != w.genesis && t[b].prev.Some? && LinkedAt(t, b)
    ensures Ancestor(t, t[b].prev.value, t[fork].height) == Some(fork)
  {
    assert LinkedAt(t, b);
    AncestorOfSelf(t, b);
    AncestorOfParent(t, b, t[fork].height);
  }

  /** SetTip's list: what was copied below, what was written above. */
  ghost predicate Filled(t: Tree, active: seq<Hash>, tmp: seq<Option<Hash>>, newTip: Hash, walk: Option<Hash>)
    requires Linked(t) && newTip in t
  {
    |tmp| == t[newTip].height + 1 && (walk.Some? ==> walk.value in t && Ancestor(t, newTip, t[walk.value].height) == walk) &&
    var low := if walk.Some? then t[walk.value].height + 1 else 0;
    low <= |tmp| &&
    (forall i :: low <= i < |tmp| ==> tmp[i] == Some(Path(t, newTip)[i])) &&
    (forall i :: 0 <= i < low ==> tmp[i] == if i < |active| then Some(active[i]) else None)
  }

  lemma {:induction false} FilledStep(t: Tree, active: seq<Hash>, tmp: seq<Option<Hash>>, newTip: Hash,
      walk: Option<Hash>)
    requires Linked(t) && newTip in t && walk.Some? && Filled(t, active, tmp, newTip, walk)
    ensures LinkedAt(t, walk.value) && Filled(t, active, tmp[t[walk.value].height := walk], newTip, t[walk.value].prev)
  {
    var h := t[walk.value].height;
    assert LinkedAt(t, walk.value);
    PathAt(t, newTip, h);
    if h > 0 {
      AncestorOfAncestor(t, newTip, h, h - 1);
      AncestorOfParent(t, walk.value, h - 1);
      AncestorOfSelf(t, t[walk.value].prev.value);
    }
  }

  lemma {:induction false} FilledEnd(t: Tree, active: seq<Hash>, tmp: seq<Option<Hash>>, newTip: Hash,
      walk: Option<Hash>)
    requires Linked(t) && newTip in t && IsActiveList(t, active) && Filled(t, active, tmp, newTip, walk)
    requires walk.Some? ==> tmp[t[walk.value].height] == walk
    ensures forall i :: 0 <= i < |tmp| ==> tmp[i] == Some(Path(t, newTip)[i])
  {
    if walk.Some? {
      var h := t[walk.value].height;
      PathAt(t, newTip, h);
      MeetingPaths(t, active[|active| - 1], newTip, h);
      forall i | 0 <= i <= h
        ensures tmp[i] == Some(Path(t, newTip)[i])
      {
        assert active[..h + 1][i] == Path(t, newTip)[..h + 1][i];
      }
    }
  }

  /** FindFork's walk: an ancestor of b with nothing common above it. */
  ghost predicate Searching(t: Tree, tip: Hash, b: Hash, index: Option<Hash>)
    requires Linked(t) && tip in t && b in t
  {
    index.Some? && index.value in t && Ancestor(t, b, t[index.value].height) == index &&
    forall h: nat {:trigger Apart(t, b, tip, h)} :: t[index.value].height < h ==> Apart(t, b, tip, h)
  }

  lemma {:induction false} SearchStart(t: Tree, tip: Hash, b: Hash)
    requires Linked(t) && tip in t && b in t
    ensures Searching(t, tip, b, if t[b].height > t[tip].height then Ancestor(t, b, t[tip].height) else Some(b))
  {
    AncestorOfSelf(t, b);
  }

  lemma {:induction false} SearchStep(w: World, t: Tree, tip: Hash, b: Hash, index: Hash)
    requires Linked(t) && SingleRooted(w, t) && tip in t && b in t && Searching(t, tip, b, Some(index))
    requires Ancestor(t, tip, t[index].height) != Some(index)
    ensures LinkedAt(t, index) && Searching(t, tip, b, t[index].prev)
  {
    assert LinkedAt(t, index);
    RootIsGenesis(w, t, tip);
    var h := t[index].height;
    assert Apart(t, b, tip, h);
    var p := t[index].prev.value;
    AncestorOfAncestor(t, b, h, h - 1);
    AncestorOfParent(t, index, h - 1);
    AncestorOfSelf(t, p);
  }

  /** A list of the new length with the old blocks copied in. */
  function Copied(active: seq<Hash>, n: nat): (tmp: seq<Option<Hash>>)
    ensures |tmp| == n && forall i :: 0 <= i < n ==> tmp[i] == if i < |active| then Some(active[i]) else None
  {
    seq(n, i requires 0 <= i => if i < |active| then Some(active[i]) else None)
  }

  function Unwrapped(s: seq<Option<Hash>>): seq<Hash>
    requires forall i :: 0 <= i < |s| ==> s[i].Some?
  {
    seq(|s|, i requires 0 <= i < |s| => s[i].value)
  }

  class Chain {
    const world: World
    const utxo: UtxoCache
    var tree: Tree
    var active: seq<Hash>
    var tip: Option<Hash>
    var branch: seq<Hash>
    var failed: set<Hash>
    var undo: UndoStore

    ghost predicate Valid()
      reads this, utxo
    {
      GoodTree(world, tree) && tip.Some? && tip.value in tree && CandidatesOrdered() &&
      ChainInvariant(world, tree, tip.value, active, utxo.coins, utxo.best, undo)
    }

    ghost predicate CandidatesOrdered()
      reads this
    {
      (forall i :: 0 <= i < |branch| ==> branch[i] in tree) && ByWork(tree, branch)
    }

    /** No candidate has more work than the tip. */
    ghost predicate TipIsBest()
      requires Valid()
      reads this, utxo
    {
      forall i :: 0 <= i < |branch| ==> tree[branch[i]].work <= tree[tip.value].work
    }

    /** InitGenesisChain over an empty coin set. */
    constructor (w: World, t: Tree, u: UtxoCache)
      requires GoodTree(w, t) && u.coins == map[]
      modifies u
      ensures Valid() && world == w && tree == t && utxo == u && tip == Some(w.genesis) && branch == []
    {
      world, tree, utxo := w, t, u;
      active, tip, branch, failed, undo := [w.genesis], Some(w.genesis), [], {}, map[];
      new;
      var view := new CoinsMap();
      u.UpdateCoins(view, w.genesis);
      FlushNone(map[], map[]);
      assert LinkedAt(t, w.genesis);
    }

    function Height(): int
      requires tip.Some? ==> tip.value in tree
      reads this
    {
      if tip.Some? then tree[tip.value].height else -1
    }

    predicate Contains(b: Hash)
      requires b in tree
      reads this
    {
      tree[b].height < |active| && active[tree[b].height] == b
    }

    method SetTip(index: Option<Hash>)
      requires Linked(tree) && IsActiveList(tree, active) && (index.Some? ==> index.value in tree)
      modifies this`active, this`tip
      ensures tip == index && active == if index.None? then [] else Path(tree, index.value)
    {
      if index.None? {
        active := [];
        tip := None;
        return;
      }
      hide IsActiveList, Path, Ancestor;
      var newTip := index.value;
      var was := active;
      var tmp := Copied(was, tree[newTip].height + 1);
      AncestorOfSelf(tree, newTip);
      var walk := index;
      while walk.Some? && tmp[tree[walk.value].height] != walk
        invariant Filled(tree, was, tmp, newTip, walk)
        decreases if walk.Some? && walk.value in tree then tree[walk.value].height + 1 else 0
      {
        FilledStep(tree, was, tmp, newTip, walk);
        tmp := tmp[tree[walk.value].height := walk];
        walk := tree[walk.value].prev;
      }
      FilledEnd(tree, was, tmp, newTip, walk);
      active := Unwrapped(tmp);
      tip := Some(newTip);
    }

    method FindFork(b: Option<Hash>) returns (fork: Option<Hash>)
      requires Valid() && (b.Some? ==> b.value in tree)
      ensures b.None? ==> fork.None?
      ensures b.Some? ==> fork.Some? && IsFork(tree, tip.value, b.value, fork.value)
    {
      if b.None? {
        return None;
      }
      hide Ancestor, Replay, AllConnect, RecordsRight, AllRecorded, Searching, Sane;
      var index := b;
      if tree[b.value].height > Height() {
        index := GetAncestor(tree, b.value, Height());
      }
      SearchStart(tree, tip.value, b.value);
      while index.Some? && !Contains(index.value)
        invariant Searching(tree, tip.value, b.value, index)
        decreases if index.Some? && index.value in tree then tree[index.value].height + 1 else 0
      {
        ActiveAt(tree, tip.value, index.value);
        SearchStep(world, tree, tip.value, b.value, index.value);
        index := tree[index.value].prev;
      }
      ActiveAt(tree, tip.value, index.value);
      fork := index;
    }

    /** insertToBranch: append, then the stable sort by work. */
    method InsertToBranch(b: Hash)
      requires Valid() && b in tree
      modifies this`branch
      ensures Valid() && multiset(branch) == multiset(old(branch)) + multiset{b}
    {
      branch := branch + [b];
      SortedByWorkSorts(tree, branch);
      branch := SortedByWork(tree, branch);
    }

    method RemoveFromBranch(b: Hash)
      modifies this`branch
      ensures branch == Without(old(branch), b)
    {
      for i := 0 to |branch|
        invariant branch == old(branch) && Without(branch, b) == branch[..i] + Without(branch[i..], b)
      {
        if branch[i] == b {
          branch := branch[..i] + branch[i + 1..];
          return;
        }
      }
    }

    method FindMostWorkChain() returns (b: Option<Hash>)
      ensures b == if |branch| > 0 then Some(branch[|branch| - 1]) else None
    {
      if |branch| > 0 {
        return Some(branch[|branch| - 1]);
      }
      b := None;
    }

    method InvalidBlockFound(b: Hash)
      modifies this`failed, this`branch
      ensures failed == old(failed) + {b} && branch == Without(old(branch), b)
    {
      failed := failed + {b};
      RemoveFromBranch(b);
    }

    method CheckBlock(b: Hash) returns (e: Option<ChainError>)
      ensures e.None? <==> world.headerAndMerkleOk(b) && Acceptable(world.txsOf(b), world.measuresOf(b))
    {
      if !world.headerAndMerkleOk(b) {
        return Some(BadBlock(None));
      }
      var check := CheckBlockTransactions(world.txsOf(b), world.measuresOf(b));
      e := if check.Some? then Some(BadBlock(check)) else None;
    }

    method IsBip30Enforced(b: Hash) returns (enforced: bool)
      requires WellBuilt(tree) && b in tree && tree[b].prev.Some?
      ensures enforced == Bip30Enforced(world, tree, b)
    {
      assert LinkedAt(tree, b);
      enforced := (tree[b].height, b) !in world.bip30Exceptions;
      var atBip34 := GetAncestor(tree, tree[b].prev.value, world.bip34Height);
      enforced := enforced && atBip34 != Some(world.bip34Hash);
    }

    /** Whether the scripts of a block on the way to the assumed-valid block are checked depends on the best header. */
    method ScriptsChecked(b: Hash) returns (checked: bool)
      requires WellBuilt(tree) && b in tree
      ensures checked || AssumedValid(world, tree, b)
    {
      checked := true;
      if world.assumeValid.Some? && world.assumeValid.value in tree {
        var a := GetAncestor(tree, world.assumeValid.value, tree[b].height);
        if a == Some(b) {
          checked := *;
        }
      }
    }

    /** ConnectBlock: accepts every block that is valid with its scripts, and only blocks that pass. */
    method ConnectBlock(b: Hash, view: CoinsMap) returns (e: Option<ChainError>)
      requires Valid() && b in tree && tree[b].prev == tip && LinkedAt(tree, b)
      modifies this`undo, view
      ensures e.Some? ==> undo == old(undo)
      ensures e.None? ==> Flushed(utxo.coins, view.cache) == Replay(world, tree, b) && TombstonesBelow(utxo.coins, view.cache)
      ensures e.None? ==> AllConnect(world, tree, b) && RecordsRight(world, tree, undo)
      ensures e.None? ==> old(undo).Keys <= undo.Keys && b in undo
      ensures e.None? ==> Passes(world, tree, b)
      ensures ValidBlock(world, tree, b, true) ==> e.None?
    {
      hide Flushed, TombstonesBelow, Replay, AllConnect, RecordsRight, AllRecorded, Sane, Bip30Enforced, Apply, Acceptable,
           UndoRecord, LegalOutputs, BlockOk, Ancestor, Subsidy;
      GoodHalves(world, tree);
      var txs := world.txsOf(b);
      e := CheckBlock(b);
      if e.Some? {
        return;
      }
      AcceptableIsLegal(txs, world.measuresOf(b));
      if tree[b].prev != Some(utxo.best) {
        assert false;
      }
      if b == world.genesis {
        assert false;
      }
      var bip30 := IsBip30Enforced(b);
      var checkScripts := ScriptsChecked(b);
      var mode := ModeFor(world, b, tree[b].height, bip30, checkScripts);
      var r := ApplyBlockTransactions(utxo.coins, txs, mode, world.rulesOf(b));
      AppliesIffValid(world, tree, b, checkScripts);
      if ValidBlock(world, tree, b, true) {
        ScriptsAreExtra(world, tree, b);
      }
      if r.Failure? {
        return Some(BadTransactions(r.error));
      }
      AcceptedConnects(world, tree, b, checkScripts);
      ConnectedPasses(world, tree, b);
      if b !in undo {
        NewRecordRight(world, tree, undo, b);
        undo := undo[b := r.value.undo];
      }
      view.cache := r.value.view;
    }

    /** Connecting a block to the tip either makes it the tip or leaves the chain alone and drops the candidate. */
    method ConnectTip(b: Hash) returns (e: Option<ChainError>)
      requires Valid() && b in tree && tree[b].prev == tip
      modifies this`undo, this`active, this`tip, this`branch, this`failed, utxo
      ensures Valid()
      ensures e.None? ==> tip == Some(b) && branch == old(branch) && failed == old(failed)
      ensures e.Some? ==> tip == old(tip) && branch == Without(old(branch), b) && failed == old(failed) + {b}
      ensures LinkedAt(tree, b) && Linked(tree) && world.halvingInterval > 0
      ensures e.Some? ==> !ValidBlock(world, tree, b, true)
    {
      assert LinkedAt(tree, b) && Linked(tree);
      InvariantFacts(world, tree, tip.value, active, utxo.coins, utxo.best, undo);
      hide ChainInvariant, GoodTree, Flushed, TombstonesBelow, Replay, IsActiveList, AllConnect, RecordsRight, Without, Linked,
           ValidBlock, Passes, ByWork;
      if tree[b].prev != tip {
        assert false;
      }
      ghost var coins, records := utxo.coins, undo;
      var view := new CoinsMap();
      e := ConnectBlock(b, view);
      if e.Some? {
        WithoutByWork(tree, branch, b);
        InvalidBlockFound(b);
        return;
      }
      TombstonesMeaning(utxo.coins, view.cache);
      ConnectedInvariant(world, tree, b, active, coins, records, undo);
      utxo.UpdateCoins(view, b);
      SetTip(Some(b));
    }

    /** Undoing the tip block on the coin set. */
    method DisconnectBlock(b: Hash) returns (res: DisconnectResult)
      requires Valid() && tip == Some(b)
      modifies utxo
      ensures b == world.genesis ==> res == DisconnectFailed && utxo.coins == old(utxo.coins) && utxo.best == old(utxo.best)
      ensures b != world.genesis ==> res == DisconnectOk && tree[b].prev.Some? && LinkedAt(tree, b)
      ensures b != world.genesis ==> utxo.coins == ParentCoins(world, tree, b) && utxo.best == tree[b].prev.value
    {
      InvariantFacts(world, tree, b, active, utxo.coins, utxo.best, undo);
      TipHasRecord(world, tree, b, active, utxo.coins, undo);
      hide ChainInvariant, GoodTree, Replay, Undo, Flushed, UnspentRecords, ParentCoins, UndoRecord;
      if utxo.best != b {
        assert false;
      }
      if b !in undo {
        return DisconnectFailed;
      }
      res := ApplyBlockUndo(undo[b], world.txsOf(b), tree[b].height, tree[b].prev.value, utxo);
    }

    /** DisconnectTip always succeeds, except that the genesis block cannot be taken back. */
    method DisconnectTip() returns (e: Option<ChainError>)
      requires Valid()
      modifies this`active, this`tip, utxo
      ensures Valid()
      ensures old(tip) == Some(world.genesis) ==> e.Some? && tip == old(tip)
      ensures old(tip) != Some(world.genesis) ==> e.None? && tip.Some? && tree[old(tip).value].prev == tip
    {
      hide ChainInvariant, GoodTree, Replay, Flushed, ParentCoins, IsActiveList, Linked, ByWork;
      GoodIsLinked(world, tree);
      ghost var was, coins := active, utxo.coins;
      var b := tip.value;
      InvariantFacts(world, tree, b, active, utxo.coins, utxo.best, undo);
      var res := DisconnectBlock(b);
      if res != DisconnectOk {
        return Some(DisconnectTipUndoFailed(res));
      }
      var view := new CoinsMap();
      FlushEmpty(utxo.coins);
      utxo.UpdateCoins(view, tree[b].prev.value);
      DisconnectedInvariant(world, tree, b, was, coins, undo);
      SetTip(tree[b].prev);
      e := None;
    }

    /** The blocks towards target above a height, the highest first. */
    method BlocksToConnect(mostWork: Hash, from: nat, target: nat) returns (toConnect: seq<Hash>)
      requires WellBuilt(tree) && mostWork in tree && from <= target <= tree[mostWork].height
      ensures |toConnect| == target - from && OnTheWay(tree, mostWork, target, toConnect)
    {
      toConnect := [];
      var iter := GetAncestor(tree, mostWork, target);
      hide WellBuilt, Ancestor;
      while iter.Some? && tree[iter.value].height != from
        invariant |toConnect| <= target - from && OnTheWay(tree, mostWork, target, toConnect)
        invariant iter == Ancestor(tree, mostWork, target - |toConnect|)
        decreases target - |toConnect|
      {
        NextOnTheWay(tree, mostWork, target - |toConnect|);
        toConnect := toConnect + [iter.value];
        iter := tree[iter.value].prev;
      }
    }

    /** Connects the collected blocks from the lowest up, until the tip beats the old one. */
    method ConnectUntilBetter(mostWork: Hash, target: nat, toConnect: seq<Hash>, oldWork: nat)
      returns (e: Option<ChainError>, better: bool, invalidFound: bool)
      requires Valid() && mostWork in tree && target <= tree[mostWork].height && |toConnect| <= target
      requires OnTheWay(tree, mostWork, target, toConnect) && tip == Ancestor(tree, mostWork, target - |toConnect|)
      modifies this`undo, this`active, this`tip, this`branch, this`failed, utxo
      ensures Valid() && tip == Ancestor(tree, mostWork, tree[tip.value].height)
      ensures e.None? ==> branch == old(branch)
      ensures e.None? && better ==> tree[tip.value].work > oldWork
      ensures e.None? && !better ==> tip == Ancestor(tree, mostWork, target) && (toConnect != [] ==> tree[tip.value].work <= oldWork)
      ensures invalidFound == e.Some? && (e.None? ==> failed == old(failed))
      ensures tree[tip.value].height >= tree[old(tip).value].height && Linked(tree) && world.halvingInterval > 0
      ensures e.Some? ==>
                exists b :: b in tree && tree[b].prev.Some? && tree[b].height > tree[old(tip).value].height &&
                            Ancestor(tree, mostWork, tree[b].height) == Some(b) && !ValidBlock(world, tree, b, true) &&
                            branch == Without(old(branch), b) && failed == old(failed) + {b}
    {
      hide WellBuilt, Ancestor, ChainInvariant, GoodTree, Without, ByWork, ValidBlock;
      GoodIsLinked(world, tree);
      GoodHalves(world, tree);
      var idx := |toConnect| - 1;
      while idx >= 0
        invariant -1 <= idx < |toConnect| && Valid() && branch == old(branch) && failed == old(failed)
        invariant tip == Ancestor(tree, mostWork, target - (idx + 1))
        invariant idx < |toConnect| - 1 ==> tree[tip.value].work <= oldWork
      {
        var b := toConnect[idx];
        NextOnTheWay(tree, mostWork, target - idx);
        e := ConnectTip(b);
        if e.Some? {
          return e, false, true;
        }
        if tree[tip.value].work > oldWork {
          return None, true, false;
        }
        idx := idx - 1;
      }
      return None, false, false;
    }

    /**
     Takes the chain back to the fork and towards mostWork until it has more work than before.
     Disconnecting cannot fail here; connecting fails only on an invalid block.
     */
    method ActivateBestChainStep(mostWork: Hash) returns (e: Option<ChainError>, invalidFound: bool)
      requires Valid() && mostWork in tree && tree[mostWork].work > tree[tip.value].work
      modifies this`undo, this`active, this`tip, this`branch, this`failed, utxo
      ensures Valid()
      ensures e.None? ==> tree[tip.value].work > tree[old(tip).value].work && tip == Ancestor(tree, mostWork, tree[tip.value].height)
      ensures e.None? ==> branch == old(branch) && failed == old(failed)
      ensures invalidFound == e.Some? && Linked(tree) && world.halvingInterval > 0
      ensures e.None? ==> ApartAbove(tree, mostWork, old(tip).value, tree[tip.value].height)
      ensures e.Some? ==> exists b :: Culprit(world, tree, mostWork, old(tip).value, b) &&
                                      branch == Without(old(branch), b) && failed == old(failed) + {b}
    {
      invalidFound := false;
      var oldTip := tip.value;
      var fork := FindFork(Some(mostWork));
      DisconnectTo(fork.value);
      hide WellBuilt, Ancestor, ChainInvariant, GoodTree, Without, ByWork, ValidBlock, Culprit;
      GoodIsLinked(world, tree);
      GoodHalves(world, tree);
      assert ApartAbove(tree, mostWork, oldTip, tree[fork.value].height);
      var better, height := false, tree[fork.value].height;
      while !better && height != tree[mostWork].height
        invariant Valid() && height <= tree[mostWork].height && branch == old(branch) && failed == old(failed)
        invariant tree[tip.value].height >= tree[fork.value].height
        invariant tip == Ancestor(tree, mostWork, tree[tip.value].height)
        invariant !better ==> tip == Ancestor(tree, mostWork, height)
        invariant better ==> tree[tip.value].work > tree[oldTip].work
        invariant !invalidFound
        decreases tree[mostWork].height - height
      {
        var target := if height + 32 < tree[mostWork].height then height + 32 else tree[mostWork].height;
        var toConnect := BlocksToConnect(mostWork, height, target);
        height := target;
        ghost var tried := tip.value;
        e, better, invalidFound := ConnectUntilBetter(mostWork, target, toConnect, tree[oldTip].work);
        if e.Some? {
          ghost var b :| b in tree && tree[b].prev.Some? && tree[b].height > tree[tried].height &&
                         Ancestor(tree, mostWork, tree[b].height) == Some(b) && !ValidBlock(world, tree, b, true) &&
                         branch == Without(old(branch), b) && failed == old(failed) + {b};
          AboveTheFork(world, tree, mostWork, oldTip, b, tree[fork.value].height);
          return;
        }
      }
      AncestorOfSelf(tree, mostWork);
      e := None;
    }

    method DisconnectTo(fork: Hash)
      requires Valid() && fork in tree && Ancestor(tree, tip.value, tree[fork].height) == Some(fork)
      modifies this`active, this`tip, utxo
      ensures Valid() && tip == Some(fork)
    {
      hide Ancestor, ChainInvariant, GoodTree, ByWork;
      GoodIsLinked(world, tree);
      while tip.Some? && tip != Some(fork)
        invariant Valid() && Ancestor(tree, tip.value, tree[fork].height) == Some(fork)
        decreases tree[tip.value].height
      {
        AboveIsNotRoot(world, tree, tip.value, fork);
        var e := DisconnectTip();
        if e.Some? {
          assert false;
        }
      }
    }

    /** How much work the best candidate has over the tip. */
    ghost function Gap(): nat
      requires CandidatesOrdered() && tip.Some? && tip.value in tree
      reads this
    {
      if branch == [] then 0
      else
        var best, now := tree[branch[|branch| - 1]].work, tree[tip.value].work;
        if best > now then best - now else 0
    }

    /** The best candidate of a list could not be reached because of b, which is marked and no longer a candidate. */
    ghost predicate Dropped(candidates: seq<Hash>, from: Hash, marked: set<Hash>, b: Hash)
      requires Linked(tree) && world.halvingInterval > 0 && from in tree
      requires candidates != [] && candidates[|candidates| - 1] in tree
      reads this
    {
      Culprit(world, tree, candidates[|candidates| - 1], from, b) && branch == Without(candidates, b) &&
      failed == marked + {b}
    }

    /**
     If ActivateBestChain returns without error or shutdown, no candidate has more work than the tip. It returns an error
     only for a block that is not valid on the way to the best candidate, and drops nothing else.
     */
    method ActivateBestChain(shutdown: bool) returns (e: Option<ChainError>)
      requires Valid()
      modifies this`undo, this`active, this`tip, this`branch, this`failed, utxo
      ensures Valid()
      ensures e.None? ==> branch == old(branch) && tree[tip.value].work >= tree[old(tip).value].work
      ensures e.None? && !shutdown ==> TipIsBest()
      ensures Linked(tree) && world.halvingInterval > 0 && (e.None? ==> failed == old(failed))
      ensures e.Some? ==> old(branch) != [] && exists b :: Dropped(old(branch), old(tip).value, old(failed), b)
      ensures old(branch) == [] || WayIsValid(world, tree, old(branch)[|old(branch)| - 1], old(tip).value) ==> e.None?
    {
      hide WellBuilt, Ancestor, ChainInvariant, GoodTree, Without, ByWork, Culprit, ApartAbove;
      GoodIsLinked(world, tree);
      GoodHalves(world, tree);
      ghost var start := tip.value;
      var mostWork: Option<Hash> := None;
      while true
        invariant Valid() && branch == old(branch) && failed == old(failed) && tree[tip.value].work >= tree[start].work
        invariant mostWork.Some? ==> branch != [] && mostWork.value == branch[|branch| - 1]
        invariant tip.value == start ||
                  (mostWork.Some? && Ancestor(tree, mostWork.value, tree[tip.value].height) == tip &&
                   ApartAbove(tree, mostWork.value, start, tree[tip.value].height))
        decreases Gap()
      {
        if shutdown {
          break;
        }
        if mostWork.None? {
          mostWork := FindMostWorkChain();
        }
        if mostWork.None? || mostWork == tip {
          if mostWork.Some? {
            LastIsBest(tree, branch);
          }
          return None;
        }
        LastIsBest(tree, branch);
        if tree[mostWork.value].work <= tree[tip.value].work {
          return None;
        }
        var invalidFound: bool;
        ghost var before := tip.value;
        e, invalidFound := ActivateBestChainStep(mostWork.value);
        if e.Some? {
          ghost var b :| Culprit(world, tree, mostWork.value, before, b) && branch == Without(old(branch), b) &&
                         failed == old(failed) + {b};
          if before != start {
            CulpritFromStart(world, tree, mostWork.value, before, start, b);
          }
          assert Dropped(old(branch), start, old(failed), b);
          CulpritSpoils(world, tree, mostWork.value, start, b);
          return;
        }
        if before != start {
          StillApart(tree, mostWork.value, start, before, tip.value);
        }
        if invalidFound {
          assert false;
        }
        if tip == mostWork {
          LastIsBest(tree, branch);
          break;
        }
      }
      e := None;
    }

    /** A header arrives and is filed in the index. */
    method AcceptHeader(h: Header)
      requires Valid() && (h.prev in tree ==> SaneAt(world, Grown(tree, h), h.hash))
      modifies this`tree
      ensures Valid() && tree == Grown(old(tree), h)
    {
      GrownIsGood(world, tree, h);
      InvariantInLarger(world, tree, Grown(tree, h), tip.value, active, utxo.coins, utxo.best, undo);
      hide GoodTree, ChainInvariant, Grown;
      if h.hash in tree || h.prev !in tree {
        KnownHeader(tree, h);
        return;
      }
      var bi := BuildIndex(tree, h.prev, h.time, h.proof);
      NewHeader(tree, h, bi);
      tree := tree[h.hash := bi];
    }

    method DoOp(op: Op) returns (e: Option<ChainError>)
      requires Valid() && (op.Arrival? && op.header.prev in tree ==> SaneAt(world, Grown(tree, op.header), op.header.hash))
      modifies this, utxo
      ensures Valid()
      ensures tree == if op.Arrival? then Grown(old(tree), op.header) else old(tree)
      ensures op == Activate(false) && e.None? ==> TipIsBest()
      ensures Linked(tree) && world.halvingInterval > 0
      ensures op.Activate? && e.Some? ==> old(branch) != [] && exists b :: Dropped(old(branch), old(tip).value, old(failed), b)
      ensures op == Activate(false) ==>
                (old(branch) == [] || WayIsValid(world, tree, old(branch)[|old(branch)| - 1], old(tip).value) ==> TipIsBest())
      ensures forall x :: x in old(branch) ==> x in branch || op == Invalidate(x) || IsInvalid(world, tree, x)
      ensures forall x :: x in failed ==> x in old(failed) || op == Invalidate(x) || IsInvalid(world, tree, x)
      ensures op.Candidate? && op.b in tree ==> op.b in branch
    {
      hide ChainInvariant, GoodTree, Without, Grown, ByWork, Culprit, WayIsValid, ValidBlock;
      GoodIsLinked(world, tree);
      GoodHalves(world, tree);
      e := None;
      match op
      case Activate(shutdown) =>
        e := ActivateBestChain(shutdown);
        if e.Some? {
          ghost var b :| Dropped(old(branch), old(tip).value, old(failed), b);
          CulpritIsInvalid(world, tree, old(branch)[|old(branch)| - 1], old(tip).value, b);
          WithoutKeepsOthers(old(branch), b);
        }
      case Disconnect =>
        e := DisconnectTip();
      case Arrival(h) =>
        AcceptHeader(h);
        GoodIsLinked(world, tree);
      case Candidate(b) =>
        if b in tree && b !in branch {
          InsertToBranch(b);
          MembersOf(branch, old(branch), b);
        }
      case Invalidate(b) =>
        WithoutByWork(tree, branch, b);
        WithoutKeepsOthers(branch, b);
        InvalidBlockFound(b);
    }

    /**
     After any run whatever, the chain, the coin set and the supply are right, and when the run ends with an
     activation that succeeds, no candidate has more work than the tip.
     */
    method Run(ops: seq<Op>) returns (errors: seq<Option<ChainError>>)
      requires Valid() && SaneArrivals(world, tree, ops)
      modifies this, utxo
      ensures Valid() && tree == TreeAfter(old(tree), ops, |ops|) && |errors| == |ops|
      ensures active == Path(tree, tip.value) && utxo.best == tip.value && utxo.coins == Replay(world, tree, tip.value)
      ensures Total(utxo.coins) <= Issued(tree[tip.value].height, world.halvingInterval)
      ensures Linked(tree) && world.halvingInterval > 0 && AllOnPathPass(world, tree, active)
      ensures ops != [] && ops[|ops| - 1] == Activate(false) && errors[|ops| - 1].None? ==> TipIsBest()
      ensures forall k :: 0 <= k < |ops| && ops[k].Activate? && errors[k].Some? ==> exists b :: IsInvalid(world, tree, b)
      ensures NothingLost(world, tree, WasOffered(old(tree), old(branch), ops, |ops|), branch, old(failed), failed, ops)
    {
      hide ChainInvariant, GoodTree, Grown, Linked, Culprit, WayIsValid, ValidBlock, ByWork, NothingLost, WasOffered, IsInvalid, AllOnPathPass;
      ghost var start, first, marked := tree, branch, failed;
      GoodIsLinked(world, tree);
      GoodHalves(world, tree);
      NothingLostYet(world, tree, branch, failed, ops);
      errors := [];
      for i := 0 to |ops|
        invariant Valid() && tree == TreeAfter(start, ops, i) && |errors| == i
        invariant i > 0 && ops[i - 1] == Activate(false) && errors[i - 1].None? ==> TipIsBest()
        invariant Linked(tree) && world.halvingInterval > 0
        invariant forall k :: 0 <= k < i && ops[k].Activate? && errors[k].Some? ==> exists b :: IsInvalid(world, tree, b)
        invariant NothingLost(world, tree, WasOffered(start, first, ops, i), branch, marked, failed, ops)
      {
        ghost var before, candidates, from, had := tree, branch, tip.value, failed;
        GrownExtends(tree, ops[i]);
        var e := DoOp(ops[i]);
        InvalidStays(world, before, tree);
        LostStep(world, before, tree, start, first, ops, i, candidates, branch, marked, had, failed);
        if ops[i].Activate? && e.Some? {
          ghost var b :| Culprit(world, tree, candidates[|candidates| - 1], from, b);
          CulpritIsInvalid(world, tree, candidates[|candidates| - 1], from, b);
        }
        errors := errors + [e];
      }
      RunEnd(world, tree, tip.value, active, utxo.coins, utxo.best, undo);
    }
  }

  /* Blocks that cannot be connected */

  /** b is on the way to a candidate but not on the way to the tip. */
  ghost predicate IsAhead(t: Tree, candidate: Hash, tip: Hash, b: Hash)
    requires Linked(t) && candidate in t && tip in t
  {
    b in t && t[b].prev.Some? && Ancestor(t, candidate, t[b].height) == Some(b) && Ancestor(t, tip, t[b].height) != Some(b)
  }

  /** ... and it is not valid. */
  ghost predicate Culprit(w: World, t: Tree, candidate: Hash, tip: Hash, b: Hash)
    requires Linked(t) && candidate in t && tip in t && w.halvingInterval > 0
  {
    IsAhead(t, candidate, tip, b) && !ValidBlock(w, t, b, true)
  }

  /** Nothing above a height is on the way to both. */
  ghost predicate ApartAbove(t: Tree, a: Hash, b: Hash, height: nat)
    requires Linked(t) && a in t && b in t
  {
    forall h: nat {:trigger Apart(t, a, b, h)} :: height < h ==> Apart(t, a, b, h)
  }

  lemma {:induction false} AboveTheFork(w: World, t: Tree, candidate: Hash, tip: Hash, b: Hash, height: nat)
    requires Linked(t) && candidate in t && tip in t && w.halvingInterval > 0 && ApartAbove(t, candidate, tip, height)
    requires b in t && t[b].prev.Some? && t[b].height > height && Ancestor(t, candidate, t[b].height) == Some(b)
    requires !ValidBlock(w, t, b, true)
    ensures Culprit(w, t, candidate, tip, b)
  {
    assert Apart(t, candidate, tip, t[b].height);
  }

  /** A culprit towards a tip that is itself on the way to the candidate lies above that tip. */
  lemma {:induction false} CulpritIsAbove(w: World, t: Tree, candidate: Hash, tip: Hash, b: Hash)
    requires Linked(t) && candidate in t && tip in t && w.halvingInterval > 0 && Culprit(w, t, candidate, tip, b)
    requires Ancestor(t, candidate, t[tip].height) == Some(tip)
    ensures t[b].height > t[tip].height
  {
    hide ValidBlock;
    if t[b].height <= t[tip].height {
      AncestorOfAncestor(t, candidate, t[tip].height, t[b].height);
    }
  }

  lemma {:induction false} CulpritFromStart(w: World, t: Tree, candidate: Hash, tip: Hash, start: Hash, b: Hash)
    requires Linked(t) && candidate in t && tip in t && start in t && w.halvingInterval > 0
    requires Culprit(w, t, candidate, tip, b) && Ancestor(t, candidate, t[tip].height) == Some(tip)
    requires ApartAbove(t, candidate, start, t[tip].height)
    ensures Culprit(w, t, candidate, start, b)
  {
    hide ValidBlock, Ancestor;
    CulpritIsAbove(w, t, candidate, tip, b);
    AboveTheFork(w, t, candidate, start, b, t[tip].height);
  }

  /** Every block on the way to the candidate that is not on the way to the tip is valid. */
  ghost predicate WayIsValid(w: World, t: Tree, candidate: Hash, tip: Hash)
    requires Linked(t) && candidate in t && tip in t && w.halvingInterval > 0
  {
    forall b :: IsAhead(t, candidate, tip, b) ==> ValidBlock(w, t, b, true)
  }

  lemma {:induction false} CulpritSpoils(w: World, t: Tree, candidate: Hash, tip: Hash, b: Hash)
    requires Linked(t) && candidate in t && tip in t && w.halvingInterval > 0 && Culprit(w, t, candidate, tip, b)
    ensures !WayIsValid(w, t, candidate, tip)
  {
  }

  lemma {:induction false} StillApart(t: Tree, candidate: Hash, start: Hash, before: Hash, tip: Hash)
    requires Linked(t) && candidate in t && start in t && before in t && tip in t
    requires Ancestor(t, candidate, t[before].height) == Some(before) && ApartAbove(t, candidate, start, t[before].height)
    requires Ancestor(t, candidate, t[tip].height) == Some(tip) && ApartAbove(t, candidate, before, t[tip].height)
    ensures ApartAbove(t, candidate, start, t[tip].height)
  {
    if t[tip].height < t[before].height {
      var h := t[before].height;
      assert Apart(t, candidate, before, h);
      AncestorOfSelf(t, before);
    }
  }

  lemma {:induction false} LastIsBest(t: Tree, s: seq<Hash>)
    requires s != [] && (forall i :: 0 <= i < |s| ==> s[i] in t) && ByWork(t, s)
    ensures forall i :: 0 <= i < |s| ==> t[s[i]].work <= t[s[|s| - 1]].work
  {
  }

  /** The block breaks a rule. */
  ghost predicate IsInvalid(w: World, t: Tree, b: Hash)
    requires Linked(t) && w.halvingInterval > 0
  {
    b in t && t[b].prev.Some? && !ValidBlock(w, t, b, true)
  }

  /** The candidates at the start, and those offered among the first i operations when their header was known. */
  ghost function WasOffered(t: Tree, first: seq<Hash>, ops: seq<Op>, i: nat): set<Hash>
    requires WellBuilt(t) && i <= |ops|
  {
    if i == 0 then set x | x in first
    else
      var op := ops[i - 1];
      WasOffered(t, first, ops, i - 1) +
      if op.Candidate? && op.b in TreeAfter(t, ops, i - 1) then {op.b} else {}
  }

  /** Whatever is no longer a candidate, or is newly marked as failed, was declared invalid or is. */
  ghost predicate NothingLost(w: World, t: Tree, offered: set<Hash>, branch: seq<Hash>, marked: set<Hash>,
                              failed: set<Hash>, ops: seq<Op>)
    requires Linked(t) && w.halvingInterval > 0
  {
    (forall x :: x in offered ==> x in branch || Invalidate(x) in ops || IsInvalid(w, t, x)) &&
    (forall x :: x in failed ==> x in marked || Invalidate(x) in ops || IsInvalid(w, t, x))
  }

  lemma {:induction false} NothingLostYet(w: World, t: Tree, branch: seq<Hash>, failed: set<Hash>, ops: seq<Op>)
    requires WellBuilt(t) && w.halvingInterval > 0
    ensures NothingLost(w, t, WasOffered(t, branch, ops, 0), branch, failed, failed, ops)
  {
  }

  lemma {:induction false} LostStep(w: World, t: Tree, u: Tree, start: Tree, first: seq<Hash>, ops: seq<Op>, i: nat,
      branch: seq<Hash>, next: seq<Hash>, marked: set<Hash>, failed: set<Hash>, now: set<Hash>)
    requires Linked(t) && Linked(u) && w.halvingInterval > 0 && WellBuilt(start) && i < |ops|
    requires NothingLost(w, t, WasOffered(start, first, ops, i), branch, marked, failed, ops)
    requires forall b :: IsInvalid(w, t, b) ==> IsInvalid(w, u, b)
    requires forall x :: x in branch ==> x in next || ops[i] == Invalidate(x) || IsInvalid(w, u, x)
    requires forall x :: x in now ==> x in failed || ops[i] == Invalidate(x) || IsInvalid(w, u, x)
    requires t == TreeAfter(start, ops, i) && (ops[i].Arrival? || u == t)
    requires ops[i].Candidate? && ops[i].b in u ==> ops[i].b in next
    ensures NothingLost(w, u, WasOffered(start, first, ops, i + 1), next, marked, now, ops)
  {
    hide IsInvalid, Linked, WellBuilt;
  }

  lemma {:induction false} CulpritIsInvalid(w: World, t: Tree, candidate: Hash, tip: Hash, b: Hash)
    requires Linked(t) && candidate in t && tip in t && w.halvingInterval > 0 && Culprit(w, t, candidate, tip, b)
    ensures IsInvalid(w, t, b)
  {
  }

  lemma {:induction false} WithoutKeepsOthers(s: seq<Hash>, b: Hash)
    ensures forall x :: x in s && x != b ==> x in Without(s, b)
  {
    if s != [] && s[0] != b {
      WithoutKeepsOthers(s[1..], b);
    }
  }

  lemma {:induction false} MembersOf(s: seq<Hash>, t: seq<Hash>, b: Hash)
    requires multiset(s) == multiset(t) + multiset{b}
    ensures b in s && forall x :: x in t ==> x in s
  {
    assert b in multiset(s);
    forall x | x in t
      ensures x in s
    {
      assert x in multiset(s);
    }
  }

  lemma {:induction false} GrownExtends(t: Tree, op: Op)
    requires WellBuilt(t)
    ensures Extends(t, if op.Arrival? then Grown(t, op.header) else t)
  {
  }

  lemma {:induction false} InvalidStays(w: World, t: Tree, u: Tree)
    requires Linked(t) && Linked(u) && Extends(t, u) && w.halvingInterval > 0
    ensures forall b :: IsInvalid(w, t, b) ==> IsInvalid(w, u, b)
  {
    hide ValidBlock;
    forall b | IsInvalid(w, t, b)
      ensures IsInvalid(w, u, b)
    {
      ValidInLarger(w, t, u, b, true);
    }
  }

  lemma {:induction false} RunEnd(w: World, t: Tree, tip: Hash, active: seq<Hash>, coins: Coins, best: Hash, undo: UndoStore)
    requires GoodTree(w, t) && ChainInvariant(w, t, tip, active, coins, best, undo)
    ensures tip in t && active == Path(t, tip) && best == tip && coins == Replay(w, t, tip)
    ensures Total(coins) <= Issued(t[tip].height, w.halvingInterval) && AllOnPathPass(w, t, active)
  {
    hide Replay, Total, RecordsRight, AllRecorded, Passes, Connects;
    ReplaySupply(w, t, tip);
    PathPasses(w, t, tip);
  }

  /** Every block of a list but the root is valid. */
  ghost predicate AllOnPathPass(w: World, t: Tree, path: seq<Hash>)
    requires Linked(t) && w.halvingInterval > 0
  {
    forall i :: 0 < i < |path| ==> path[i] in t && t[path[i]].prev.Some? && Passes(w, t, path[i])
  }

  lemma {:induction false} PathPasses(w: World, t: Tree, b: Hash)
    requires Linked(t) && b in t && w.halvingInterval > 0 && AllConnect(w, t, b)
    ensures AllOnPathPass(w, t, Path(t, b))
    decreases t[b].height
  {
    hide Passes, Connects;
    assert LinkedAt(t, b);
    if t[b].prev.Some? {
      PathPasses(w, t, t[b].prev.value);
    }
  }

  lemma {:induction false} GoodHalves(w: World, t: Tree)
    requires GoodTree(w, t)
    ensures w.halvingInterval > 0
  {
  }

  lemma {:induction false} ConnectedPasses(w: World, t: Tree, b: Hash)
    requires Linked(t) && b in t && t[b].prev.Some? && w.halvingInterval > 0 && AllConnect(w, t, b)
    ensures Passes(w, t, b)
  {
    hide Passes, Connects;
  }

  lemma {:induction false} GoodIsLinked(w: World, t: Tree)
    requires GoodTree(w, t)
    ensures WellBuilt(t) && Linked(t) && SingleRooted(w, t)
  {
  }

  lemma {:induction false} KnownHeader(t: Tree, h: Header)
    requires WellBuilt(t) && (h.hash in t || h.prev !in t)
    ensures Grown(t, h) == t
  {
  }

  lemma {:induction false} NewHeader(t: Tree, h: Header, bi: BlockIndex)
    requires WellBuilt(t) && h.hash !in t && h.prev in t
    requires BuiltOn(t, bi) && bi.prev == Some(h.prev) && bi.time == h.time && bi.proof == h.proof
    ensures Grown(t, h) == t[h.hash := bi]
  {
  }
}
