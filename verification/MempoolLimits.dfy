/** When the ancestor search refuses a transaction: exactly beyond the limits, unless an ancestor is reached twice. */
module MempoolLimits {
  import opened Wrappers
  import opened Utxo
  import opened Dag
  import opened MempoolWalk
  import opened MempoolSpec

  /** The ancestors found from the direct parents respect all limits. */
  ghost predicate Fits(pool: Pool, rank: Rank, start: set<TxId>, txSize: nat, lim: Limits)
    requires Ranked(ParentGraph(pool), rank) && start <= pool.Keys
  {
    var found := AllReached(ParentGraph(pool), rank, start);
    found == {} ||
    ((forall a :: a in found ==> WithinLimits(pool[a], lim)) &&
     !Exceeds(txSize + Total(pool, found).size, lim.ancestorSize) && !Exceeds(|found| + 1, lim.ancestorCount))
  }

  /** Every ancestor is reached over a single path, so that none is queued twice. */
  ghost predicate SinglePaths(pool: Pool, rank: Rank, start: set<TxId>)
    requires Ranked(ParentGraph(pool), rank) && start <= pool.Keys
  {
    PathLoad(pool, rank, start).count == |AllReached(ParentGraph(pool), rank, start)|
  }

  /** The paths are at least as many as what they reach; if they are as many, they weigh as much. */
  ghost predicate Covers(pool: Pool, reached: set<TxId>, load: Load) {
    reached <= pool.Keys && |reached| <= load.count && (|reached| == load.count ==> Total(pool, reached).size == load.size)
  }

  lemma {:induction false} JoinCount(a: set<Node>, b: set<Node>)
    ensures |a + b| <= |a| + |b| && (|a + b| == |a| + |b| ==> a !! b)
  {
    assert |a + b| == |a| + |b| - |a * b|;
    forall x | x in a && x in b
      ensures |a * b| >= 1
    {
      SubsetIsSmaller({x}, a * b);
    }
  }

  lemma {:induction false} CoversJoin(pool: Pool, a: set<TxId>, la: Load, b: set<TxId>, lb: Load)
    requires Covers(pool, a, la) && Covers(pool, b, lb)
    ensures Covers(pool, a + b, la.Plus(lb))
  {
    hide Total;
    JoinCount(a, b);
    if |a + b| == la.count + lb.count {
      TotalSplit(pool, a + b, a);
      assert a + b - a == b;
      var ta, tb := Total(pool, a), Total(pool, b);
      assert ta.Plus(tb).size == ta.size + tb.size;
    }
  }

  lemma {:induction false} CoversNothing(pool: Pool)
    ensures Covers(pool, {}, NO_LOAD)
  {
    TotalOfNone(pool);
  }

  lemma {:induction false} CoversOne(pool: Pool, x: TxId)
    requires x in pool
    ensures Covers(pool, {x}, LoadOf(SizesOf(pool), x))
  {
    TotalOfNone(pool);
    TotalWithout(pool, {x}, x);
    assert {x} - {x} == {};
    hide Total;
    assert pool[x].Own().Plus(NOTHING).size == pool[x].size;
  }

  lemma {:induction false} ReachedSplit(g: Graph, rank: Rank, s: set<Node>, p: Node)
    requires Ranked(g, rank) && s <= g.Keys && p in s
    ensures AllReached(g, rank, s) == AllReached(g, rank, {p}) + AllReached(g, rank, s - {p})
  {
    hide Ranked, Reaches;
  }

  lemma {:induction false} ReachedFromOne(g: Graph, rank: Rank, x: Node)
    requires Ranked(g, rank) && x in g
    ensures RankedAt(g, rank, x) && g[x] <= g.Keys
    ensures AllReached(g, rank, {x}) == {x} + AllReached(g, rank, g[x])
  {
    assert RankedAt(g, rank, x);
    forall y | y in g
      ensures Reaches(g, rank, x, y) <==> Reached(g, rank, g[x], y)
    {
    }
  }

  lemma {:induction false} ReachedFromNone(g: Graph, rank: Rank)
    requires Ranked(g, rank)
    ensures AllReached(g, rank, {}) == {}
  {
  }

  lemma {:induction false} PathsCover(pool: Pool, rank: Rank, x: TxId)
    requires Ranked(ParentGraph(pool), rank) && x in pool && x in rank
    ensures Covers(pool, AllReached(ParentGraph(pool), rank, {x}), Paths(ParentGraph(pool), rank, SizesOf(pool), x))
    decreases rank[x], 1, 0
  {
    hide Covers, AllReached, PathsOf, Paths, Ranked, Reaches;
    var g, w := ParentGraph(pool), SizesOf(pool);
    ReachedFromOne(g, rank, x);
    SetCovers(pool, rank, g[x], rank[x]);
    CoversOne(pool, x);
    CoversJoin(pool, {x}, LoadOf(w, x), AllReached(g, rank, g[x]), PathsOf(g, rank, w, g[x], rank[x]));
    PathsAt(g, rank, w, x);
  }

  lemma {:induction false} SetCovers(pool: Pool, rank: Rank, s: set<TxId>, r: nat)
    requires Ranked(ParentGraph(pool), rank) && AllBelow(ParentGraph(pool), rank, s, r)
    ensures s <= pool.Keys
    ensures Covers(pool, AllReached(ParentGraph(pool), rank, s), PathsOf(ParentGraph(pool), rank, SizesOf(pool), s, r))
    decreases r, 0, |s|
  {
    hide Covers, AllReached, PathsOf, Paths, Ranked, Reaches;
    var g, w := ParentGraph(pool), SizesOf(pool);
    if s == {} {
      ReachedFromNone(g, rank);
      NoPaths(g, rank, w, r);
      CoversNothing(pool);
    } else {
      var p :| p in s;
      PathsCover(pool, rank, p);
      SetCovers(pool, rank, s - {p}, r);
      ReachedSplit(g, rank, s, p);
      PathsOfWithout(g, rank, w, s, r, p);
      CoversJoin(pool, AllReached(g, rank, {p}), Paths(g, rank, w, p), AllReached(g, rank, s - {p}),
                 PathsOf(g, rank, w, s - {p}, r));
    }
  }

  /** Where no ancestor is reached twice, a refusal means that a limit is exceeded. */
  lemma {:induction false} SinglePathsDecide(pool: Pool, rank: Rank, start: set<TxId>, txSize: nat, lim: Limits)
    requires Ranked(ParentGraph(pool), rank) && start <= pool.Keys && SinglePaths(pool, rank, start)
    requires Overloaded(pool, rank, start, txSize, lim) && AllReached(ParentGraph(pool), rank, start) != {}
    ensures !Fits(pool, rank, start, txSize, lim)
  {
    var g := ParentGraph(pool);
    assert forall x :: x in start ==> RankedAt(g, rank, x);
    SetCovers(pool, rank, start, RankBound(rank, start));
    hide Total, AllReached, PathsOf, Ranked;
  }
}
