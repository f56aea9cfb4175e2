/** Pool entries with their links, and the two worklist closures over them (model/mempool). */
module MempoolWalk {
  import opened Wrappers
  import opened Utxo
  import opened Dag

  /** What an entry adds to a total: itself, its size, its signature operations and its fee. */
  datatype Weight = Weight(count: int, size: int, sigOps: int, fee: int) {
    function Plus(w: Weight): Weight { Weight(count + w.count, size + w.size, sigOps + w.sigOps, fee + w.fee) }

    function Minus(w: Weight): Weight { Weight(count - w.count, size - w.size, sigOps - w.sigOps, fee - w.fee) }
  }

  const NOTHING: Weight := Weight(0, 0, 0, 0)

  /** A pool entry: links to other entries are their transaction ids. */
  datatype TxEntry = TxEntry(tx: Tx, size: nat, fee: int, sigOps: nat, usage: nat, time: int,
                         parents: set<TxId>, children: set<TxId>,
                         anc: Weight, descCount: int, descSize: int, descFee: int)
  {
    function Own(): Weight { Weight(1, size, sigOps, fee) }
  }

  type Pool = map<TxId, TxEntry>

  function ParentGraph(pool: Pool): (g: Graph)
    ensures g.Keys == pool.Keys
  {
    map x | x in pool :: pool[x].parents
  }

  function ChildGraph(pool: Pool): (g: Graph)
    ensures g.Keys == pool.Keys
  {
    map x | x in pool :: pool[x].children
  }

  /** The pool transactions whose outputs tx spends. */
  function InputParents(pool: Pool, tx: Tx): (r: set<TxId>)
    ensures r <= pool.Keys
  {
    set o | o in tx.ins && o.hash in pool :: o.hash
  }

  /* Totals */

  ghost function Total(pool: Pool, s: set<TxId>): Weight
    requires s <= pool.Keys
    decreases |s|
  {
    if s == {} then NOTHING
    else
      var x :| x in s;
      pool[x].Own().Plus(Total(pool, s - {x}))
  }

  lemma {:induction false} TotalWithout(pool: Pool, s: set<TxId>, x: TxId)
    requires s <= pool.Keys && x in s
    ensures Total(pool, s) == pool[x].Own().Plus(Total(pool, s - {x}))
    decreases |s|
  {
    var y :| y in s && Total(pool, s) == pool[y].Own().Plus(Total(pool, s - {y}));
    if y != x {
      TotalWithout(pool, s - {y}, x);
      TotalWithout(pool, s - {x}, y);
      assert s - {y} - {x} == s - {x} - {y};
      PlusSwaps(pool[x].Own(), pool[y].Own(), Total(pool, s - {x} - {y}));
    }
  }

  lemma {:induction false} PlusSwaps(a: Weight, b: Weight, c: Weight)
    ensures a.Plus(b.Plus(c)) == b.Plus(a.Plus(c)) && a.Plus(c) == c.Plus(a)
  {
  }

  lemma {:induction false} TotalWith(pool: Pool, s: set<TxId>, x: TxId)
    requires s <= pool.Keys && x in pool && x !in s
    ensures Total(pool, s + {x}) == Total(pool, s).Plus(pool[x].Own())
  {
    TotalWithout(pool, s + {x}, x);
    assert s + {x} - {x} == s;
  }

  lemma {:induction false} TotalFacts(pool: Pool, s: set<TxId>)
    requires s <= pool.Keys
    ensures Total(pool, s).count == |s| && Total(pool, s).size >= 0
    decreases |s|
  {
    if s != {} {
      var x :| x in s && Total(pool, s) == pool[x].Own().Plus(Total(pool, s - {x}));
      TotalFacts(pool, s - {x});
      var rest := Total(pool, s - {x});
      assert pool[x].Own().Plus(rest).count == 1 + rest.count;
    }
  }

  /* Walks */

  /** y is one of the start nodes or can be reached from one. */
  ghost predicate Reached(c: Graph, rank: Rank, start: set<Node>, y: Node)
    requires Ranked(c, rank) && start <= c.Keys
  {
    y in start || exists p :: p in start && Reaches(c, rank, p, y)
  }

  ghost function AllReached(c: Graph, rank: Rank, start: set<Node>): set<Node>
    requires Ranked(c, rank) && start <= c.Keys
  {
    set y | y in c && Reached(c, rank, start, y)
  }

  /** The state of a walk: what is collected or queued was reached, and nothing is forgotten. */
  ghost predicate WalkState(c: Graph, rank: Rank, start: set<Node>, init: set<Node>, done: set<Node>, stage: seq<Node>)
    requires Ranked(c, rank) && start <= c.Keys
  {
    AllIn(c, stage) && init <= done && (forall y :: y in start ==> y in done || y in stage) &&
    (forall y :: y in done ==> y in c && (y in init || Reached(c, rank, start, y))) &&
    (forall y :: y in stage ==> Reached(c, rank, start, y)) &&
    (forall y, z :: y in done && y in c && z in c[y] ==> z in done || z in stage)
  }

  function SizesOf(pool: Pool): Sizes { map x | x in pool :: pool[x].size }

  lemma {:induction false} PathsAt(c: Graph, rank: Rank, w: Sizes, x: Node)
    requires Ranked(c, rank) && x in c && RankedAt(c, rank, x)
    ensures Paths(c, rank, w, x) == LoadOf(w, x).Plus(PathsOf(c, rank, w, c[x], rank[x]))
  {
  }

  lemma {:induction false} WalkMoves(c: Graph, rank: Rank, start: set<Node>, init: set<Node>, done: set<Node>,
      stage: seq<Node>, next: seq<Node>)
    requires Ranked(c, rank) && start <= c.Keys && stage != [] && WalkState(c, rank, start, init, done, stage)
    requires AllIn(c, next) && forall y :: y in next <==> y in stage[1..] || (y in c[stage[0]] && y !in done + {stage[0]})
    ensures WalkState(c, rank, start, init, done + {stage[0]}, next)
  {
    var e := stage[0];
    assert stage == [e] + stage[1..];
    assert Reached(c, rank, start, e);
    forall y | y in next
      ensures Reached(c, rank, start, y)
    {
      if y in c[e] {
        ReachedOn(c, rank, start, e, y);
      }
    }
  }

  lemma {:induction false} ReachedOn(c: Graph, rank: Rank, start: set<Node>, e: Node, y: Node)
    requires Ranked(c, rank) && start <= c.Keys && e in c && Reached(c, rank, start, e) && y in c[e]
    ensures Reached(c, rank, start, y)
  {
    assert RankedAt(c, rank, e);
    if e in start {
      assert Reaches(c, rank, e, y);
    } else {
      var p :| p in start && Reaches(c, rank, p, e);
      ReachesOn(c, rank, p, e, y);
    }
  }

  lemma {:induction false} WalkEnds(c: Graph, rank: Rank, start: set<Node>, init: set<Node>, done: set<Node>)
    requires Ranked(c, rank) && start <= c.Keys && WalkState(c, rank, start, init, done, [])
    ensures done == init + AllReached(c, rank, start)
  {
    forall y | y in AllReached(c, rank, start)
      ensures y in done
    {
      if y !in start {
        var p :| p in start && Reaches(c, rank, p, y);
        ClosedHoldsBelow(c, rank, done, p, y);
      }
    }
  }

  /* Descendants */

  /** Appends the successors not collected yet, in any order. */
  method AppendNew(succ: set<Node>, done: set<Node>, stageIn: seq<Node>,
                   ghost c: Graph, ghost rank: Rank, ghost w: Sizes, ghost r: nat)
    returns (stage: seq<Node>)
    requires Ranked(c, rank) && AllIn(c, stageIn) && AllBelow(c, rank, succ, r)
    ensures AllIn(c, stage)
    ensures QueuePaths(c, rank, w, stage).Within(QueuePaths(c, rank, w, stageIn).Plus(PathsOf(c, rank, w, succ, r)))
    ensures forall y :: y in stage <==> y in stageIn || (y in succ && y !in done)
  {
    hide QueuePaths, PathsOf, Paths, Ranked;
    stage := stageIn;
    var left := succ;
    NoPaths(c, rank, w, r);
    while left != {}
      invariant left <= succ && AllIn(c, stage)
      invariant QueuePaths(c, rank, w, stage).Plus(PathsOf(c, rank, w, left, r))
                  .Within(QueuePaths(c, rank, w, stageIn).Plus(PathsOf(c, rank, w, succ, r)))
      invariant forall y :: y in stage <==> y in stageIn || (y in succ - left && y !in done)
      decreases left
    {
      var child :| child in left;
      PathsOfWithout(c, rank, w, left, r, child);
      if child !in done {
        QueueSnoc(c, rank, w, stage, child);
        stage := stage + [child];
      }
      left := left - {child};
    }
  }

  /** CalculateDescendants adds exactly the entry and everything that descends from it. */
  method CalculateDescendants(pool: Pool, entry: TxId, init: set<TxId>, ghost rank: Rank) returns (descendants: set<TxId>)
    requires entry in pool && Ranked(ChildGraph(pool), rank)
    requires init <= pool.Keys && forall y, z :: y in init && z in pool[y].children ==> z in init
    ensures descendants == init + AllReached(ChildGraph(pool), rank, {entry})
  {
    ghost var c, w := ChildGraph(pool), SizesOf(pool);
    descendants := init;
    var stage := [];
    if entry !in descendants {
      stage := [entry];
    }
    assert WalkState(c, rank, {entry}, init, descendants, stage);
    hide WalkState, QueuePaths, Paths, PathsOf;
    while |stage| > 0
      invariant AllIn(c, stage) && WalkState(c, rank, {entry}, init, descendants, stage)
      decreases QueuePaths(c, rank, w, stage).count
    {
      var e := stage[0];
      ghost var before, had := stage, descendants;
      assert RankedAt(c, rank, e);
      QueuePop(c, rank, w, stage);
      PathsAt(c, rank, w, e);
      descendants := descendants + {e};
      stage := AppendNew(pool[e].children, descendants, stage[1..], c, rank, w, rank[e]);
      WalkMoves(c, rank, {entry}, init, had, before, stage);
    }
    WalkEnds(c, rank, {entry}, init, descendants);
  }

  /* Ancestors */

  /** No value is the largest 64-bit number, which no total exceeds. */
  datatype Limits = Limits(ancestorCount: Option<nat>, ancestorSize: Option<nat>, descendantCount: Option<nat>, descendantSize: Option<nat>)

  const NO_LIMITS: Limits := Limits(None, None, None, None)

  predicate Exceeds(x: int, limit: Option<nat>) { limit.Some? && x > limit.value }

  /** The loop over the inputs, which stops as soon as there are too many parents. */
  method FindParents(pool: Pool, tx: Tx, limit: Option<nat>) returns (r: Option<set<TxId>>)
    ensures r == if InputParents(pool, tx) != {} && Exceeds(|InputParents(pool, tx)| + 1, limit) then None
                 else Some(InputParents(pool, tx))
  {
    var parents := {};
    for i := 0 to |tx.ins|
      invariant forall p :: p in parents <==> p in pool && exists j :: 0 <= j < i && tx.ins[j].hash == p
      invariant parents != {} ==> !Exceeds(|parents| + 1, limit)
    {
      if tx.ins[i].hash in pool {
        parents := parents + {tx.ins[i].hash};
        if Exceeds(|parents| + 1, limit) {
          assert parents <= InputParents(pool, tx) by { FoundParents(pool, tx, i + 1, parents); }
          SubsetIsSmaller(parents, InputParents(pool, tx));
          return None;
        }
      }
    }
    FoundParents(pool, tx, |tx.ins|, parents);
    r := Some(parents);
  }

  lemma {:induction false} FoundParents(pool: Pool, tx: Tx, i: nat, parents: set<TxId>)
    requires i <= |tx.ins| && forall p :: p in parents <==> p in pool && exists j :: 0 <= j < i && tx.ins[j].hash == p
    ensures parents <= InputParents(pool, tx) && (i == |tx.ins| ==> parents == InputParents(pool, tx))
  {
    forall p | p in parents
      ensures p in InputParents(pool, tx)
    {
      var j :| 0 <= j < i && tx.ins[j].hash == p;
      assert tx.ins[j] in tx.ins;
    }
  }

  /** The parents as a queue, in any order. */
  method Enqueued(s: set<TxId>) returns (q: seq<TxId>)
    ensures |q| == |s| && forall x :: x in q <==> x in s
  {
    q := [];
    var left := s;
    while left != {}
      invariant left <= s && |q| + |left| == |s| && forall x :: x in q <==> x in s - left
      decreases left
    {
      var x :| x in left;
      q := q + [x];
      left := left - {x};
    }
  }

  /** Appends the parents of an ancestor, checking the count after each. */
  method AppendParents(succ: set<Node>, done: set<Node>, stageIn: seq<Node>, limit: Option<nat>,
                       ghost c: Graph, ghost rank: Rank, ghost w: Sizes, ghost r: nat)
    returns (ok: bool, stage: seq<Node>)
    requires Ranked(c, rank) && AllIn(c, stageIn) && AllBelow(c, rank, succ, r)
    ensures AllIn(c, stage)
    ensures QueuePaths(c, rank, w, stage).Within(QueuePaths(c, rank, w, stageIn).Plus(PathsOf(c, rank, w, succ, r)))
    ensures ok ==> forall y :: y in stage <==> y in stageIn || (y in succ && y !in done)
    ensures ok ==> (if succ == {} then stage == stageIn else !Exceeds(|stage| + |done| + 1, limit))
    ensures !ok ==> succ != {} && Exceeds(|stage| + |done| + 1, limit)
  {
    hide QueuePaths, PathsOf, Paths, Ranked;
    stage := stageIn;
    var left := succ;
    NoPaths(c, rank, w, r);
    while left != {}
      invariant left <= succ && AllIn(c, stage)
      invariant QueuePaths(c, rank, w, stage).Plus(PathsOf(c, rank, w, left, r))
                  .Within(QueuePaths(c, rank, w, stageIn).Plus(PathsOf(c, rank, w, succ, r)))
      invariant forall y :: y in stage <==> y in stageIn || (y in succ - left && y !in done)
      invariant if left == succ then stage == stageIn else !Exceeds(|stage| + |done| + 1, limit)
      decreases left
    {
      var parent :| parent in left;
      PathsOfWithout(c, rank, w, left, r, parent);
      if parent !in done {
        QueueSnoc(c, rank, w, stage, parent);
        stage := stage + [parent];
      }
      if Exceeds(|stage| + |done| + 1, limit) {
        return false, stage;
      }
      left := left - {parent};
    }
    ok := true;
  }

  /** The checks an ancestor passed. */
  ghost predicate WithinLimits(e: TxEntry, lim: Limits) {
    !Exceeds(e.descSize + e.size, lim.descendantSize) && !Exceeds(e.descCount + 1, lim.descendantCount)
  }

  ghost predicate CountWithin(queued: nat, done: nat, limit: Option<nat>) {
    !Exceeds(queued + done + 1, limit)
  }

  /** The checks on one ancestor, with its size added to the total. */
  method AdmitAncestor(e: TxEntry, total: int, lim: Limits) returns (ok: bool, now: int)
    ensures ok == (WithinLimits(e, lim) && !Exceeds(now, lim.ancestorSize)) && now == total + e.size
  {
    now := total + e.size;
    if Exceeds(e.descSize + e.size, lim.descendantSize) {
      return false, now;
    }
    if Exceeds(e.descCount + 1, lim.descendantCount) {
      return false, now;
    }
    ok := !Exceeds(now, lim.ancestorSize);
  }

  /** What the walk keeps: the collected ancestors passed their checks, and the total covers them. */
  ghost predicate Admitted(pool: Pool, done: set<TxId>, txSize: nat, total: int, lim: Limits) {
    done <= pool.Keys && total >= txSize + Total(pool, done).size && (forall a :: a in done ==> WithinLimits(pool[a], lim)) &&
    (done != {} ==> !Exceeds(total, lim.ancestorSize))
  }

  lemma {:induction false} AdmitOne(pool: Pool, done: set<TxId>, e: TxId, txSize: nat, total: int, lim: Limits)
    requires Admitted(pool, done, txSize, total, lim) && e in pool && WithinLimits(pool[e], lim)
    requires !Exceeds(total + pool[e].size, lim.ancestorSize)
    ensures Admitted(pool, done + {e}, txSize, total + pool[e].size, lim)
  {
    hide Total;
    TotalStep(pool, done, e);
  }

  /* Refusals */

  /** A bound on the ranks of a set. */
  ghost function RankBound(rank: Rank, s: set<Node>): (r: nat)
    requires forall x :: x in s ==> x in rank
    ensures forall x :: x in s ==> rank[x] < r
    decreases |s|
  {
    if s == {} then 0
    else
      var x :| x in s;
      var rest := RankBound(rank, s - {x});
      if rank[x] < rest then rest else rank[x] + 1
  }

  /** The paths over parent links that start in a set of entries. */
  ghost function PathLoad(pool: Pool, rank: Rank, start: set<TxId>): Load
    requires Ranked(ParentGraph(pool), rank) && start <= pool.Keys
  {
    assert forall x :: x in start ==> RankedAt(ParentGraph(pool), rank, x);
    PathsOf(ParentGraph(pool), rank, SizesOf(pool), start, RankBound(rank, start))
  }

  /** Counting every ancestor once for every path to it, some limit is exceeded. */
  ghost predicate Overloaded(pool: Pool, rank: Rank, start: set<TxId>, txSize: nat, lim: Limits)
    requires Ranked(ParentGraph(pool), rank) && start <= pool.Keys
  {
    (exists a :: a in AllReached(ParentGraph(pool), rank, start) && !WithinLimits(pool[a], lim)) ||
    Exceeds(txSize + PathLoad(pool, rank, start).size, lim.ancestorSize) ||
    Exceeds(PathLoad(pool, rank, start).count + 1, lim.ancestorCount)
  }

  /** The same as far as the walk notices: it checks the count only where an ancestor has parents. */
  ghost predicate WalkOverloaded(pool: Pool, rank: Rank, start: set<TxId>, txSize: nat, lim: Limits)
    requires Ranked(ParentGraph(pool), rank) && start <= pool.Keys
  {
    Overloaded(pool, rank, start, txSize, lim) &&
    (Overloaded(pool, rank, start, txSize, lim.(ancestorCount := None)) ||
     exists a :: a in AllReached(ParentGraph(pool), rank, start) && pool[a].parents != {})
  }

  /** What has been walked and what is still queued is within the paths there are. */
  ghost predicate Paced(pool: Pool, rank: Rank, start: set<TxId>, queue: seq<TxId>, done: nat, sizes: int)
    requires Ranked(ParentGraph(pool), rank) && start <= pool.Keys && AllIn(ParentGraph(pool), queue)
  {
    sizes >= 0 &&
    Load(done, sizes).Plus(QueuePaths(ParentGraph(pool), rank, SizesOf(pool), queue)).Within(PathLoad(pool, rank, start))
  }

  lemma {:induction false} PacedAtStart(pool: Pool, rank: Rank, start: set<TxId>, queue: seq<TxId>)
    requires Ranked(ParentGraph(pool), rank) && start <= pool.Keys && |queue| == |start|
    requires forall x :: x in queue <==> x in start
    ensures AllIn(ParentGraph(pool), queue) && Paced(pool, rank, start, queue, 0, 0)
  {
    hide QueuePaths, PathsOf;
    var g := ParentGraph(pool);
    assert forall x :: x in start ==> RankedAt(g, rank, x);
    hide Ranked;
    QueueOfSet(g, rank, SizesOf(pool), start, RankBound(rank, start), queue);
  }

  /** Taking the head and queueing its parents keeps the pace, and bounds the total on the way. */
  lemma {:induction false} PacedStep(pool: Pool, rank: Rank, start: set<TxId>, queue: seq<TxId>, done: nat, sizes: int,
      next: seq<TxId>)
    requires Ranked(ParentGraph(pool), rank) && start <= pool.Keys && AllIn(ParentGraph(pool), queue) && queue != []
    requires Paced(pool, rank, start, queue, done, sizes) && AllIn(ParentGraph(pool), next)
    requires RankedAt(ParentGraph(pool), rank, queue[0])
    requires var g, w := ParentGraph(pool), SizesOf(pool);
             AllIn(g, queue[1..]) &&
             QueuePaths(g, rank, w, next).Within(
               QueuePaths(g, rank, w, queue[1..]).Plus(PathsOf(g, rank, w, g[queue[0]], rank[queue[0]])))
    ensures Paced(pool, rank, start, next, done + 1, sizes + pool[queue[0]].size)
    ensures done + 1 + |next| <= PathLoad(pool, rank, start).count
  {
    hide QueuePaths, PathsOf, Paths, PathLoad, Ranked;
    var g, w := ParentGraph(pool), SizesOf(pool);
    QueuePop(g, rank, w, queue);
    PathsAt(g, rank, w, queue[0]);
    QueueLength(g, rank, w, next);
  }

  /** The size of the head is within the paths there are. */
  lemma {:induction false} PacedHead(pool: Pool, rank: Rank, start: set<TxId>, queue: seq<TxId>, done: nat, sizes: int)
    requires Ranked(ParentGraph(pool), rank) && start <= pool.Keys && AllIn(ParentGraph(pool), queue) && queue != []
    requires Paced(pool, rank, start, queue, done, sizes) && RankedAt(ParentGraph(pool), rank, queue[0])
    ensures sizes + pool[queue[0]].size <= PathLoad(pool, rank, start).size
  {
    hide QueuePaths, PathsOf, Paths, PathLoad, Ranked;
    var g, w := ParentGraph(pool), SizesOf(pool);
    QueuePop(g, rank, w, queue);
    PathsAt(g, rank, w, queue[0]);
  }

  lemma {:induction false} QueuedIsReached(c: Graph, rank: Rank, start: set<Node>, init: set<Node>, done: set<Node>,
      stage: seq<Node>)
    requires Ranked(c, rank) && start <= c.Keys && stage != [] && WalkState(c, rank, start, init, done, stage)
    ensures stage[0] in AllReached(c, rank, start)
  {
    assert stage[0] in stage;
  }

  /** The walk over ancestors. */
  method WalkAncestors(pool: Pool, start: set<TxId>, txSize: nat, lim: Limits, ghost rank: Rank) returns (r: Option<set<TxId>>)
    requires Ranked(ParentGraph(pool), rank) && start <= pool.Keys
    ensures r.Some? ==> r.value == AllReached(ParentGraph(pool), rank, start)
    ensures r.Some? ==> exists total :: Admitted(pool, r.value, txSize, total, lim)
    ensures r.Some? && CountWithin(|start|, 0, lim.ancestorCount) ==> CountWithin(0, |r.value|, lim.ancestorCount)
    ensures r.None? ==> start != {} && WalkOverloaded(pool, rank, start, txSize, lim)
  {
    hide WalkState, QueuePaths, Paths, PathsOf, Total, AllReached, Admitted, Paced, PathLoad, Ranked;
    ghost var c, w := ParentGraph(pool), SizesOf(pool);
    var queue := Enqueued(start);
    var ancestors: set<TxId> := {};
    var total: int := txSize;
    ghost var popped := 0;
    WalkStarts(c, rank, start, queue);
    NobodyAdmitted(pool, txSize, lim);
    PacedAtStart(pool, rank, start, queue);
    while |queue| > 0
      invariant AllIn(c, queue) && WalkState(c, rank, start, {}, ancestors, queue)
      invariant Admitted(pool, ancestors, txSize, total, lim)
      invariant CountWithin(|start|, 0, lim.ancestorCount) ==> CountWithin(|queue|, |ancestors|, lim.ancestorCount)
      invariant Paced(pool, rank, start, queue, popped, total - txSize) && |ancestors| <= popped
      invariant start == {} ==> queue == []
      decreases QueuePaths(c, rank, w, queue).count
    {
      var e := queue[0];
      ghost var before, had, was := queue, ancestors, total;
      assert RankedAt(c, rank, e) by { AllRanked(c, rank, e); }
      QueuePop(c, rank, w, queue);
      PathsAt(c, rank, w, e);
      PacedHead(pool, rank, start, queue, popped, total - txSize);
      QueuedIsReached(c, rank, start, {}, ancestors, queue);
      ancestors := ancestors + {e};
      var ok;
      ok, total := AdmitAncestor(pool[e], total, lim);
      if !ok {
        return None;
      }
      AdmitOne(pool, had, e, txSize, was, lim);
      ok, queue := AppendParents(pool[e].parents, ancestors, queue[1..], lim.ancestorCount, c, rank, w, rank[e]);
      PacedStep(pool, rank, start, before, popped, was - txSize, queue);
      popped := popped + 1;
      if !ok {
        return None;
      }
      WalkMoves(c, rank, start, {}, had, before, queue);
    }
    assert queue == [];
    WalkEnds(c, rank, start, {}, ancestors);
    r := Some(ancestors);
  }

  lemma {:induction false} AllRanked(c: Graph, rank: Rank, x: Node)
    requires Ranked(c, rank) && x in c
    ensures RankedAt(c, rank, x)
  {
  }

  lemma {:induction false} WalkStarts(c: Graph, rank: Rank, start: set<Node>, queue: seq<Node>)
    requires Ranked(c, rank) && start <= c.Keys && forall x :: x in queue <==> x in start
    ensures WalkState(c, rank, start, {}, {}, queue)
  {
    hide Ranked;
  }

  lemma {:induction false} NobodyAdmitted(pool: Pool, txSize: nat, lim: Limits)
    ensures Admitted(pool, {}, txSize, txSize, lim)
  {
    TotalOfNone(pool);
  }

  /** Collecting an entry, perhaps again, adds at most its size. */
  lemma {:induction false} TotalStep(pool: Pool, s: set<TxId>, x: TxId)
    requires s <= pool.Keys && x in pool
    ensures Total(pool, s + {x}).size <= Total(pool, s).size + pool[x].size
  {
    if x in s {
      assert s + {x} == s;
    } else {
      TotalWith(pool, s, x);
      assert Total(pool, s).Plus(pool[x].Own()).size == Total(pool, s).size + pool[x].size;
    }
  }

  lemma {:induction false} TotalOfNone(pool: Pool)
    ensures Total(pool, {}) == NOTHING
  {
  }

  lemma {:induction false} StartIsReached(c: Graph, rank: Rank, start: set<Node>)
    requires Ranked(c, rank) && start <= c.Keys
    ensures start <= AllReached(c, rank, start) && |start| <= |AllReached(c, rank, start)|
    ensures start == {} ==> AllReached(c, rank, start) == {}
  {
    SubsetIsSmaller(start, AllReached(c, rank, start));
  }

  /** The direct parents the walk starts from. */
  function StartOf(pool: Pool, tx: Tx, searchForParent: bool): set<TxId>
    requires !searchForParent ==> tx.id in pool
  {
    if searchForParent then InputParents(pool, tx) else pool[tx.id].parents
  }

  /**
   CalculateMemPoolAncestors finds exactly the ancestors. A result respects the descendant limits of each of them and
   the size limit. It respects the count limit, the transaction itself included, exactly when the direct parents do;
   searching for the parents checks that, unless the limit is zero and there are none.
   */
  method CalculateMemPoolAncestors(pool: Pool, tx: Tx, txSize: nat, lim: Limits, searchForParent: bool, ghost rank: Rank)
    returns (r: Option<set<TxId>>)
    requires Ranked(ParentGraph(pool), rank)
    requires !searchForParent ==> tx.id in pool && pool[tx.id].parents <= pool.Keys
    ensures r.Some? ==> r.value == AllReached(ParentGraph(pool), rank, StartOf(pool, tx, searchForParent))
    ensures r.Some? ==> r.value <= pool.Keys && forall a :: a in r.value ==> WithinLimits(pool[a], lim)
    ensures r.Some? && r.value != {} ==> !Exceeds(txSize + Total(pool, r.value).size, lim.ancestorSize)
    ensures r.Some? ==> (!Exceeds(|r.value| + 1, lim.ancestorCount) <==>
                         !Exceeds(|StartOf(pool, tx, searchForParent)| + 1, lim.ancestorCount))
    ensures r.Some? && searchForParent && Exceeds(|r.value| + 1, lim.ancestorCount) ==> r.value == {} && lim.ancestorCount == Some(0)
    ensures r.None? ==> StartOf(pool, tx, searchForParent) != {} &&
                        Overloaded(pool, rank, StartOf(pool, tx, searchForParent), txSize, lim)
    ensures r.None? && !searchForParent ==> WalkOverloaded(pool, rank, pool[tx.id].parents, txSize, lim)
  {
    hide Total, AllReached, PathLoad, Ranked;
    var parents: set<TxId>;
    if searchForParent {
      var found := FindParents(pool, tx, lim.ancestorCount);
      if found.None? {
        ParentsArePaths(pool, rank, InputParents(pool, tx));
        return None;
      }
      parents := found.value;
    } else {
      parents := pool[tx.id].parents;
    }
    r := WalkAncestors(pool, parents, txSize, lim, rank);
    StartIsReached(ParentGraph(pool), rank, parents);
  }

  lemma {:induction false} NeverOverloaded(pool: Pool, rank: Rank, start: set<TxId>, txSize: nat)
    requires Ranked(ParentGraph(pool), rank) && start <= pool.Keys
    ensures !Overloaded(pool, rank, start, txSize, NO_LIMITS)
  {
    hide PathLoad, AllReached, Ranked;
  }

  /** Every direct parent starts a path. */
  lemma {:induction false} ParentsArePaths(pool: Pool, rank: Rank, start: set<TxId>)
    requires Ranked(ParentGraph(pool), rank) && start <= pool.Keys
    ensures |start| <= PathLoad(pool, rank, start).count
  {
    assert forall x :: x in start ==> RankedAt(ParentGraph(pool), rank, x);
    SetHasPaths(ParentGraph(pool), rank, SizesOf(pool), start, RankBound(rank, start));
  }

  lemma {:induction false} SetHasPaths(g: Graph, rank: Rank, w: Sizes, s: set<Node>, r: nat)
    requires Ranked(g, rank) && AllBelow(g, rank, s, r)
    ensures |s| <= PathsOf(g, rank, w, s, r).count
    decreases |s|
  {
    hide Paths, PathsOf, Ranked;
    if s != {} {
      var p :| p in s;
      PathsOfWithout(g, rank, w, s, r, p);
      SetHasPaths(g, rank, w, s - {p}, r);
      HasPath(g, rank, w, p);
      assert |s| == |s - {p}| + 1;
    }
  }

  lemma {:induction false} HasPath(g: Graph, rank: Rank, w: Sizes, x: Node)
    requires Ranked(g, rank) && x in g
    ensures Paths(g, rank, w, x).count >= 1
  {
  }

  lemma {:induction false} ParentlessReach(g: Graph, rank: Rank, start: set<Node>)
    requires Ranked(g, rank) && start <= g.Keys && forall x :: x in start ==> g[x] == {}
    ensures AllReached(g, rank, start) == start
  {
  }

  /** An entry with two parents, and what the search for its ancestors makes of a count limit of one. */
  method CountLimitExample() returns (pool: Pool, tx: Tx, r: Option<set<TxId>>)
    ensures tx.id in pool && r == Some(pool[tx.id].parents) && |r.value| == 2
  {
    hide AllReached, PathLoad, Overloaded;
    var a, b := Tx(1, [OutPoint(8, 0)], []), Tx(2, [OutPoint(9, 0)], []);
    tx := Tx(3, [OutPoint(1, 0), OutPoint(2, 0)], []);
    var w := Weight(1, 1, 0, 0);
    var e := TxEntry(a, 1, 0, 0, 1, 0, {}, {3}, w, 2, 2, 0);
    pool := map[1 := e, 2 := e.(tx := b), 3 := TxEntry(tx, 1, 0, 0, 1, 0, {1, 2}, {}, Weight(3, 3, 0, 0), 1, 1, 0)];
    ghost var rank := map[1 := 0, 2 := 0, 3 := 1];
    ghost var g := ParentGraph(pool);
    assert RankedAt(g, rank, 1) && RankedAt(g, rank, 2) && RankedAt(g, rank, 3);
    ParentlessReach(g, rank, {1, 2});
    NeverOverloaded(pool, rank, {1, 2}, 1);
    assert NO_LIMITS.(ancestorCount := None) == NO_LIMITS;
    r := CalculateMemPoolAncestors(pool, tx, 1, NO_LIMITS.(ancestorCount := Some(1)), false, rank);
  }
}
