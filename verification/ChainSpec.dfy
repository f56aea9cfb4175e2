/**
 What the active chain should be: a path in the block tree, with the coin set that replaying its
 blocks gives and an undo record for every block on it.
 */
module ChainSpec {
  import opened Wrappers
  import opened Basics
  import opened Utxo
  import opened BlockApply
  import opened BlockEffect
  import opened BlockUndo
  import opened BlockCheck
  import opened BlockAccept
  import opened Supply
  import opened BlockTree

  /** The stored blocks and the checks that depend on scripts, sizes and the network. */
  datatype World = World(
    genesis: Hash,
    txsOf: Hash -> seq<Tx>,
    headerAndMerkleOk: Hash -> bool,
    measuresOf: Hash -> Measures,
    rulesOf: Hash -> Rules,
    outputsFirst: Hash -> bool,
    bip30Exceptions: set<(nat, Hash)>,
    bip34Height: nat,
    bip34Hash: Hash,
    assumeValid: Option<Hash>,
    halvingInterval: nat)

  ghost predicate SingleRooted(w: World, t: Tree) {
    w.genesis in t && t[w.genesis].prev.None? && forall b :: b in t && t[b].prev.None? ==> b == w.genesis
  }

  /** Whether the block must not overwrite coins: not one of the two exceptions, and not past BIP 34. */
  ghost predicate Bip30Enforced(w: World, t: Tree, b: Hash)
    requires Linked(t) && b in t && t[b].prev.Some?
  {
    assert LinkedAt(t, b);
    (t[b].height, b) !in w.bip30Exceptions && Ancestor(t, t[b].prev.value, w.bip34Height) != Some(w.bip34Hash)
  }

  /* Replaying a chain */

  /** The blocks from the root to b. */
  ghost function Path(t: Tree, b: Hash): (p: seq<Hash>)
    requires Linked(t) && b in t
    ensures |p| == t[b].height + 1 && p[|p| - 1] == b
    decreases t[b].height
  {
    assert LinkedAt(t, b);
    if t[b].prev.None? then [b] else Path(t, t[b].prev.value) + [b]
  }

  /** The coin set of a chain; the genesis block's coins do not exist. */
  ghost function Replay(w: World, t: Tree, b: Hash): Coins
    requires Linked(t) && b in t
    decreases t[b].height
  {
    assert LinkedAt(t, b);
    if t[b].prev.None? then map[] else Connected(Replay(w, t, t[b].prev.value), w.txsOf(b), t[b].height)
  }

  ghost function ParentCoins(w: World, t: Tree, b: Hash): Coins
    requires Linked(t) && b in t && t[b].prev.Some?
  {
    assert LinkedAt(t, b);
    Replay(w, t, t[b].prev.value)
  }

  /** The parent's coins with the block's own outputs: what its inputs may name. */
  ghost function Available(w: World, t: Tree, b: Hash): Coins
    requires Linked(t) && b in t && t[b].prev.Some?
  {
    ParentCoins(w, t, b) + BlockOuts(w.txsOf(b), t[b].height)
  }

  /** The undo record of a block. */
  ghost function UndoRecord(w: World, t: Tree, b: Hash): seq<seq<Coin>>
    requires Linked(t) && b in t && t[b].prev.Some?
  {
    UndoOf(Available(w, t, b), w.txsOf(b), |w.txsOf(b)|)
  }

  /** The block is valid on top of its parent's coins. */
  ghost predicate Connects(w: World, t: Tree, b: Hash)
    requires Linked(t) && b in t && w.halvingInterval > 0
  {
    t[b].prev.Some? ==>
      var txs := w.txsOf(b);
      Applicable(ParentCoins(w, t, b), txs, t[b].height) && BlockIns(txs) <= Available(w, t, b).Keys &&
      txs[0].ValueOut() <= FeesOf(Available(w, t, b), txs, |txs|) + Subsidy(t[b].height, w.halvingInterval)
  }

  function ModeFor(w: World, b: Hash, height: nat, bip30: bool, checkInputs: bool): Mode
    requires w.halvingInterval > 0
  {
    Mode(bip30, w.outputsFirst(b), checkInputs, Subsidy(height, w.halvingInterval), height, height)
  }

  /** The block is on the way to the block assumed to be valid. */
  ghost predicate AssumedValid(w: World, t: Tree, b: Hash)
    requires Linked(t) && b in t
  {
    w.assumeValid.Some? && w.assumeValid.value in t && Ancestor(t, w.assumeValid.value, t[b].height) == Some(b)
  }

  /** Everything the rules ask of a block: its checks by itself, and on its parent's coins, scripts included or not. */
  ghost predicate ValidBlock(w: World, t: Tree, b: Hash, scripts: bool)
    requires Linked(t) && b in t && t[b].prev.Some? && w.halvingInterval > 0
  {
    w.headerAndMerkleOk(b) && Acceptable(w.txsOf(b), w.measuresOf(b)) && w.txsOf(b) != [] &&
    BlockOk(ParentCoins(w, t, b), w.txsOf(b), ModeFor(w, b, t[b].height, Bip30Enforced(w, t, b), scripts), w.rulesOf(b))
  }

  /** The block is valid; on the way to the block assumed to be valid its scripts may be anything. */
  ghost predicate Passes(w: World, t: Tree, b: Hash)
    requires Linked(t) && b in t && t[b].prev.Some? && w.halvingInterval > 0
  {
    ValidBlock(w, t, b, false) && (ValidBlock(w, t, b, true) || AssumedValid(w, t, b))
  }

  ghost predicate AllConnect(w: World, t: Tree, b: Hash)
    requires Linked(t) && b in t && w.halvingInterval > 0
    decreases t[b].height
  {
    assert LinkedAt(t, b);
    Connects(w, t, b) && (t[b].prev.Some? ==> Passes(w, t, b) && AllConnect(w, t, t[b].prev.value))
  }

  type UndoStore = map<Hash, seq<seq<Coin>>>

  ghost predicate RecordRight(w: World, t: Tree, undo: UndoStore, b: Hash)
    requires Linked(t)
  {
    b in undo ==> b in t && t[b].prev.Some? && undo[b] == UndoRecord(w, t, b)
  }

  ghost predicate RecordsRight(w: World, t: Tree, undo: UndoStore)
    requires Linked(t)
  {
    forall b {:trigger RecordRight(w, t, undo, b)} :: RecordRight(w, t, undo, b)
  }

  ghost predicate AllRecorded(t: Tree, undo: UndoStore, b: Hash)
    requires Linked(t) && b in t
    decreases t[b].height
  {
    assert LinkedAt(t, b);
    t[b].prev.Some? ==> b in undo && AllRecorded(t, undo, t[b].prev.value)
  }

  /* What has to be assumed of the blocks */

  /** Identifiers do not collide, and where BIP 30 is not enforced the block overwrites nothing. */
  ghost predicate SaneAt(w: World, t: Tree, b: Hash)
    requires Linked(t) && b in t
  {
    IdsIdentify(w.txsOf(b)) &&
    (t[b].prev.Some? && !Bip30Enforced(w, t, b) ==> ParentCoins(w, t, b).Keys !! BlockOuts(w.txsOf(b), t[b].height).Keys)
  }

  ghost predicate Sane(w: World, t: Tree)
    requires Linked(t)
  {
    w.halvingInterval > 0 && forall b {:trigger SaneAt(w, t, b)} :: b in t ==> SaneAt(w, t, b)
  }

  ghost predicate GoodTree(w: World, t: Tree) {
    WellBuilt(t) && SingleRooted(w, t) && Sane(w, t)
  }

  /** Everything a node keeps true of its chain. */
  ghost predicate ChainInvariant(w: World, t: Tree, tip: Hash, active: seq<Hash>, coins: Coins, best: Hash, undo: UndoStore)
    requires GoodTree(w, t)
  {
    tip in t && active == Path(t, tip) && best == tip && coins == Replay(w, t, tip) &&
    AllConnect(w, t, tip) && RecordsRight(w, t, undo) && AllRecorded(t, undo, tip)
  }

  /* Paths */

  lemma {:induction false} PathAt(t: Tree, b: Hash, i: nat)
    requires Linked(t) && b in t && i <= t[b].height
    ensures Ancestor(t, b, i) == Some(Path(t, b)[i])
    decreases t[b].height
  {
    assert LinkedAt(t, b);
    if i < t[b].height {
      PathAt(t, t[b].prev.value, i);
    }
  }

  /** A path is a prefix of the paths of its descendants. */
  lemma {:induction false} PathPrefix(t: Tree, b: Hash, height: nat)
    requires Linked(t) && b in t && height <= t[b].height
    ensures Path(t, Ancestor(t, b, height).value) == Path(t, b)[..height + 1]
    decreases t[b].height
  {
    assert LinkedAt(t, b);
    if height < t[b].height {
      AncestorOfParent(t, b, height);
      PathPrefix(t, t[b].prev.value, height);
    }
  }

  /** On a single-rooted tree every block descends from genesis. */
  lemma {:induction false} RootIsGenesis(w: World, t: Tree, b: Hash)
    requires Linked(t) && SingleRooted(w, t) && b in t
    ensures Ancestor(t, b, 0) == Some(w.genesis) && t[w.genesis].height == 0
    decreases t[b].height
  {
    assert LinkedAt(t, b);
    if t[b].prev.Some? {
      RootIsGenesis(w, t, t[b].prev.value);
      AncestorOfParent(t, b, 0);
    } else {
      assert LinkedAt(t, w.genesis);
    }
  }

  /* New headers */

  datatype Header = Header(hash: Hash, prev: Hash, time: nat, proof: nat)

  /** The tree with a header filed: one already known changes nothing, and neither does one without parent. */
  ghost function Grown(t: Tree, h: Header): (u: Tree)
    requires WellBuilt(t)
    ensures WellBuilt(u) && Extends(t, u)
    ensures u.Keys == if h.prev in t then t.Keys + {h.hash} else t.Keys
  {
    if h.hash in t || h.prev !in t then t
    else
      var pre := t[h.prev];
      var bi := BlockIndex(Some(h.prev), Ancestor(t, h.prev, SkipHeight(pre.height + 1)), pre.height + 1, h.time,
                           Max(pre.timeMax, h.time), h.proof, pre.work + h.proof);
      GrownIsWellBuilt(t, h.hash, bi);
      t[h.hash := bi]
  }

  ghost predicate Extends(t: Tree, u: Tree) {
    forall b :: b in t ==> b in u && u[b] == t[b]
  }

  lemma {:induction false} PathInLarger(t: Tree, u: Tree, b: Hash)
    requires Linked(t) && Linked(u) && Extends(t, u) && b in t
    ensures Path(u, b) == Path(t, b)
    decreases t[b].height
  {
    assert LinkedAt(t, b);
    if t[b].prev.Some? {
      PathInLarger(t, u, t[b].prev.value);
    }
  }

  lemma {:induction false} ReplayInLarger(w: World, t: Tree, u: Tree, b: Hash)
    requires Linked(t) && Linked(u) && Extends(t, u) && b in t
    ensures Replay(w, u, b) == Replay(w, t, b)
    ensures t[b].prev.Some? ==> ParentCoins(w, u, b) == ParentCoins(w, t, b)
    decreases t[b].height
  {
    hide Connected;
    assert LinkedAt(t, b);
    if t[b].prev.Some? {
      ReplayInLarger(w, t, u, t[b].prev.value);
    }
  }

  lemma {:induction false} AncestorInLarger(t: Tree, u: Tree, b: Hash, height: int)
    requires Linked(t) && Linked(u) && Extends(t, u) && b in t
    ensures Ancestor(u, b, height) == Ancestor(t, b, height)
  {
    if 0 <= height <= t[b].height {
      WalkInLargerTree(t, u, b, t[b].height - height);
    }
  }

  lemma {:induction false} ValidInLarger(w: World, t: Tree, u: Tree, b: Hash, scripts: bool)
    requires Linked(t) && Linked(u) && Extends(t, u) && b in t && t[b].prev.Some? && w.halvingInterval > 0
    ensures ValidBlock(w, u, b, scripts) <==> ValidBlock(w, t, b, scripts)
  {
    hide Replay, BlockOk, Ancestor, Acceptable;
    assert LinkedAt(t, b);
    ReplayInLarger(w, t, u, b);
    AncestorInLarger(t, u, t[b].prev.value, w.bip34Height);
  }

  lemma {:induction false} PassesInLarger(w: World, t: Tree, u: Tree, b: Hash)
    requires Linked(t) && Linked(u) && Extends(t, u) && b in t && t[b].prev.Some? && w.halvingInterval > 0
    requires Passes(w, t, b)
    ensures Passes(w, u, b)
  {
    hide ValidBlock, Ancestor;
    ValidInLarger(w, t, u, b, true);
    ValidInLarger(w, t, u, b, false);
    if AssumedValid(w, t, b) {
      AncestorInLarger(t, u, w.assumeValid.value, t[b].height);
    }
  }

  lemma {:induction false} AllConnectInLarger(w: World, t: Tree, u: Tree, b: Hash)
    requires Linked(t) && Linked(u) && Extends(t, u) && b in t && w.halvingInterval > 0 && AllConnect(w, t, b)
    ensures AllConnect(w, u, b)
    decreases t[b].height
  {
    hide Applicable, FeesOf, Subsidy, Replay, Passes;
    assert LinkedAt(t, b) && Connects(w, t, b);
    if t[b].prev.Some? {
      PassesInLarger(w, t, u, b);
      ReplayInLarger(w, t, u, b);
      AllConnectInLarger(w, t, u, t[b].prev.value);
    }
  }

  lemma {:induction false} RecordsInLarger(w: World, t: Tree, u: Tree, undo: UndoStore)
    requires Linked(t) && Linked(u) && Extends(t, u) && RecordsRight(w, t, undo)
    ensures RecordsRight(w, u, undo)
  {
    hide Replay, UndoOf;
    forall b
      ensures RecordRight(w, u, undo, b)
    {
      assert RecordRight(w, t, undo, b);
      if b in undo {
        ReplayInLarger(w, t, u, b);
      }
    }
  }

  lemma {:induction false} AllRecordedInLarger(t: Tree, u: Tree, undo: UndoStore, b: Hash)
    requires Linked(t) && Linked(u) && Extends(t, u) && b in t && AllRecorded(t, undo, b)
    ensures AllRecorded(u, undo, b)
    decreases t[b].height
  {
    assert LinkedAt(t, b);
    if t[b].prev.Some? {
      AllRecordedInLarger(t, u, undo, t[b].prev.value);
    }
  }

  lemma {:induction false} SaneInLarger(w: World, t: Tree, u: Tree, b: Hash)
    requires Linked(t) && Linked(u) && Extends(t, u) && b in t && SaneAt(w, t, b)
    ensures SaneAt(w, u, b)
  {
    hide Replay, OutMap, IdsIdentify;
    if t[b].prev.Some? {
      assert LinkedAt(t, b);
      ReplayInLarger(w, t, u, b);
      AncestorInLarger(t, u, t[b].prev.value, w.bip34Height);
    }
  }

  /** A new header whose block is sane leaves a good tree good. */
  lemma {:induction false} GrownIsGood(w: World, t: Tree, h: Header)
    requires GoodTree(w, t) && (h.prev in t ==> SaneAt(w, Grown(t, h), h.hash))
    ensures GoodTree(w, Grown(t, h))
  {
    var u := Grown(t, h);
    hide SaneAt, WellBuilt;
    forall b | b in u
      ensures SaneAt(w, u, b)
    {
      if b in t {
        assert SaneAt(w, t, b);
        SaneInLarger(w, t, u, b);
      }
    }
  }

  /** What a node keeps true of its chain does not depend on headers that came later. */
  lemma {:induction false} InvariantInLarger(w: World, t: Tree, u: Tree, tip: Hash, active: seq<Hash>, coins: Coins,
      best: Hash, undo: UndoStore)
    requires GoodTree(w, t) && GoodTree(w, u) && Extends(t, u)
    requires ChainInvariant(w, t, tip, active, coins, best, undo)
    ensures ChainInvariant(w, u, tip, active, coins, best, undo)
  {
    assert w.halvingInterval > 0;
    hide Path, Replay, AllConnect, RecordsRight, AllRecorded, Sane;
    PathInLarger(t, u, tip);
    ReplayInLarger(w, t, u, tip);
    AllConnectInLarger(w, t, u, tip);
    RecordsInLarger(w, t, u, undo);
    AllRecordedInLarger(t, u, undo, tip);
  }

  /* Connecting and disconnecting one block */

  lemma {:induction false} ReplayValid(w: World, t: Tree, b: Hash)
    requires Linked(t) && b in t && w.halvingInterval > 0 && AllConnect(w, t, b)
    ensures ValidCoins(Replay(w, t, b))
    decreases t[b].height
  {
    assert LinkedAt(t, b);
    if t[b].prev.Some? {
      ReplayValid(w, t, t[b].prev.value);
      assert Applicable(ParentCoins(w, t, b), w.txsOf(b), t[b].height);
      ConnectedValid(ParentCoins(w, t, b), w.txsOf(b), t[b].height);
    }
  }

  lemma {:induction false} ConnectedValid(base: Coins, txs: seq<Tx>, height: nat)
    requires Applicable(base, txs, height)
    ensures ValidCoins(base + BlockOuts(txs, height)) && ValidCoins(Connected(base, txs, height))
  {
    OutMapValid(txs, height, |txs|);
  }

  /** Where BIP 30 is enforced, an accepted block's outputs are new. */
  lemma {:induction false} NoOverwriteIsDisjoint(base: Coins, txs: seq<Tx>, height: nat)
    requires DistinctIds(txs) && !AnyOverwrite(base, txs)
    ensures base.Keys !! BlockOuts(txs, height).Keys
  {
    forall o | o in BlockOuts(txs, height)
      ensures o !in base
    {
      OutMapKeys(txs, height, |txs|, o);
      var i :| i < |txs| && IsOutput(txs, i, o);
      assert o == OutPoint(txs[i].id, o.index);
      assert !Overwrites(base, txs[i], o.index);
    }
  }

  lemma {:induction false} AcceptedIsApplicable(w: World, t: Tree, b: Hash, checkInputs: bool)
    requires GoodTree(w, t) && b in t && t[b].prev.Some? && LinkedAt(t, b) && AllConnect(w, t, t[b].prev.value)
    requires Acceptable(w.txsOf(b), w.measuresOf(b))
    requires var m := ModeFor(w, b, t[b].height, Bip30Enforced(w, t, b), checkInputs);
             w.txsOf(b) != [] && Apply(ParentCoins(w, t, b), w.txsOf(b), m, w.rulesOf(b)).Success?
    ensures Applicable(ParentCoins(w, t, b), w.txsOf(b), t[b].height)
  {
    hide AnyOverwrite, ProcessTo, Bip30Enforced, Acceptable, Replay, ValidCoins, OutMap;
    assert SaneAt(w, t, b);
    AcceptableIsWellFormed(w.txsOf(b), w.measuresOf(b));
    ReplayValid(w, t, t[b].prev.value);
    if Bip30Enforced(w, t, b) {
      NoOverwriteIsDisjoint(ParentCoins(w, t, b), w.txsOf(b), t[b].height);
    }
  }

  lemma {:induction false} ValidCoinsUnspent(c: Coins)
    requires ValidCoins(c)
    ensures NoneSpent(c)
  {
  }

  /** Applying a block that passed its own checks succeeds exactly when the block is valid. */
  lemma {:induction false} AppliesIffValid(w: World, t: Tree, b: Hash, scripts: bool)
    requires GoodTree(w, t) && b in t && t[b].prev.Some? && LinkedAt(t, b) && AllConnect(w, t, t[b].prev.value)
    requires w.headerAndMerkleOk(b) && Acceptable(w.txsOf(b), w.measuresOf(b)) && w.txsOf(b) != []
    ensures w.halvingInterval > 0
    ensures var m := ModeFor(w, b, t[b].height, Bip30Enforced(w, t, b), scripts);
            Apply(ParentCoins(w, t, b), w.txsOf(b), m, w.rulesOf(b)).Success? <==> ValidBlock(w, t, b, scripts)
  {
    hide Apply, BlockOk, Acceptable, Bip30Enforced, ValidCoins, NoneSpent, AllConnect, Subsidy;
    assert SaneAt(w, t, b);
    AcceptableIsWellFormed(w.txsOf(b), w.measuresOf(b));
    ReplayValid(w, t, t[b].prev.value);
    ValidCoinsUnspent(ParentCoins(w, t, b));
    AppliedIff(ParentCoins(w, t, b), w.txsOf(b), ModeFor(w, b, t[b].height, Bip30Enforced(w, t, b), scripts), w.rulesOf(b));
  }

  lemma {:induction false} ScriptsAreExtra(w: World, t: Tree, b: Hash)
    requires Linked(t) && b in t && t[b].prev.Some? && w.halvingInterval > 0 && ValidBlock(w, t, b, true)
    ensures ValidBlock(w, t, b, false)
  {
    hide BlockOk, Acceptable, Bip30Enforced, Subsidy;
    UncheckedIsWeaker(ParentCoins(w, t, b), w.txsOf(b), ModeFor(w, b, t[b].height, Bip30Enforced(w, t, b), true), w.rulesOf(b));
  }

  /** A block that applies on its parent's coins gives its own coins, its undo record, and connects. */
  lemma {:induction false} AcceptedConnects(w: World, t: Tree, b: Hash, checkInputs: bool)
    requires GoodTree(w, t) && b in t && t[b].prev.Some? && LinkedAt(t, b) && AllConnect(w, t, t[b].prev.value)
    requires Acceptable(w.txsOf(b), w.measuresOf(b))
    requires var m := ModeFor(w, b, t[b].height, Bip30Enforced(w, t, b), checkInputs);
             w.txsOf(b) != [] && Apply(ParentCoins(w, t, b), w.txsOf(b), m, w.rulesOf(b)).Success?
    requires w.headerAndMerkleOk(b) && (checkInputs || AssumedValid(w, t, b))
    ensures var m := ModeFor(w, b, t[b].height, Bip30Enforced(w, t, b), checkInputs);
            var st := Apply(ParentCoins(w, t, b), w.txsOf(b), m, w.rulesOf(b)).value;
            Flushed(ParentCoins(w, t, b), st.view) == Replay(w, t, b) && st.undo == UndoRecord(w, t, b) && AllConnect(w, t, b)
    ensures var m := ModeFor(w, b, t[b].height, Bip30Enforced(w, t, b), checkInputs);
            TombstonesBelow(ParentCoins(w, t, b), Apply(ParentCoins(w, t, b), w.txsOf(b), m, w.rulesOf(b)).value.view)
  {
    hide Apply, Flushed, Applicable, Acceptable, Bip30Enforced, UndoOf, FeesOf, Connected, TombstonesBelow, Subsidy, ValidBlock, AssumedValid;
    AcceptedIsApplicable(w, t, b, checkInputs);
    AppliesIffValid(w, t, b, checkInputs);
    if checkInputs {
      ScriptsAreExtra(w, t, b);
    }
    var m := ModeFor(w, b, t[b].height, Bip30Enforced(w, t, b), checkInputs);
    AppliedInClosedForm(ParentCoins(w, t, b), w.txsOf(b), m, w.rulesOf(b));
    AppliedTombstones(ParentCoins(w, t, b), w.txsOf(b), m, w.rulesOf(b));
  }

  ghost predicate TombstonesBelow(base: Coins, v: View) {
    forall o :: o in v && v[o].isDirty && !v[o].isFresh ==> o in base
  }

  lemma {:induction false} AppliedTombstones(base: Coins, txs: seq<Tx>, m: Mode, rules: Rules)
    requires Applicable(base, txs, m.height) && Apply(base, txs, m, rules).Success?
    ensures TombstonesBelow(base, Apply(base, txs, m, rules).value.view)
  {
    assert txs != [];
    hide OutMap, ProcessTo, ValidCoins, InputSet;
    ProcessClosed(base, txs, m, rules, |txs|);
  }

  /** The undo record takes the coins back to the parent's. */
  lemma {:induction false} UndoneIsParent(w: World, t: Tree, b: Hash)
    requires Linked(t) && w.halvingInterval > 0 && b in t && t[b].prev.Some? && AllConnect(w, t, b)
    ensures LinkedAt(t, b) && AllConnect(w, t, t[b].prev.value)
    ensures var r := Undo(Replay(w, t, b), w.txsOf(b), UndoRecord(w, t, b), t[b].height);
            r.0 == DisconnectOk && Flushed(Replay(w, t, b), r.1) == ParentCoins(w, t, b)
    ensures UnspentRecords(UndoRecord(w, t, b))
  {
    assert LinkedAt(t, b) && Connects(w, t, b);
    hide Undo, Flushed, Applicable, UndoOf, FeesOf, Connected, UnspentRecords;
    UndoIsInverse(ParentCoins(w, t, b), w.txsOf(b), t[b].height);
    ConnectedValid(ParentCoins(w, t, b), w.txsOf(b), t[b].height);
    RecordsUnspent(Available(w, t, b), w.txsOf(b), |w.txsOf(b)|);
  }

  lemma {:induction false} RecordsUnspent(all: Coins, txs: seq<Tx>, i: nat)
    requires ValidCoins(all) && i <= |txs| && InputSet(txs, i) <= all.Keys
    ensures UnspentRecords(UndoOf(all, txs, i))
  {
    if i > 0 {
      RecordsUnspent(all, txs, i - 1);
    }
  }

  /* The supply */

  /** However the chain got there, its coins are worth no more than the subsidies of its blocks. */
  lemma {:induction false} ReplaySupply(w: World, t: Tree, b: Hash)
    requires Linked(t) && b in t && w.halvingInterval > 0 && AllConnect(w, t, b)
    ensures Total(Replay(w, t, b)) <= Issued(t[b].height, w.halvingInterval)
    decreases t[b].height
  {
    hide Passes, Connected, FeesOf, Subsidy;
    assert LinkedAt(t, b) && Connects(w, t, b);
    if t[b].prev.Some? {
      hide Total, Applicable;
      ReplaySupply(w, t, t[b].prev.value);
      ConnectedValue(ParentCoins(w, t, b), w.txsOf(b), t[b].height);
    }
  }

  lemma {:induction false} SupplyIsCapped(w: World, t: Tree, b: Hash)
    requires Linked(t) && b in t && w.halvingInterval == 210_000 && AllConnect(w, t, b)
    ensures Total(Replay(w, t, b)) < MAX_MONEY
  {
    hide Total, Issued, Replay, AllConnect;
    ReplaySupply(w, t, b);
    IssueIsCapped(t[b].height, w.halvingInterval);
  }
}
