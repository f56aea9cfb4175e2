/** Finite graphs whose edges go down in rank: reachability, and the number of paths a worklist still has to walk. */
module Dag {

  type Node = nat
  type Graph = map<Node, set<Node>>
  type Rank = map<Node, nat>

  ghost predicate RankedAt(g: Graph, rank: Rank, x: Node)
    requires x in g
  {
    x in rank && forall p :: p in g[x] ==> p in g && p in rank && rank[p] < rank[x]
  }

  ghost predicate Ranked(g: Graph, rank: Rank) {
    forall x {:trigger RankedAt(g, rank, x)} :: x in g ==> RankedAt(g, rank, x)
  }

  /** There is a path of one edge or more from x to a. */
  ghost predicate Reaches(g: Graph, rank: Rank, x: Node, a: Node)
    requires Ranked(g, rank) && x in g
    decreases if x in rank then rank[x] else 0
  {
    assert RankedAt(g, rank, x);
    exists p :: p in g[x] && (a == p || Reaches(g, rank, p, a))
  }

  ghost function Below(g: Graph, rank: Rank, x: Node): set<Node>
    requires Ranked(g, rank) && x in g
  {
    set a | a in g && Reaches(g, rank, x, a)
  }

  lemma {:induction false} ReachesInside(g: Graph, rank: Rank, x: Node, a: Node)
    requires Ranked(g, rank) && x in g && Reaches(g, rank, x, a)
    ensures a in g && a in rank && x in rank && rank[a] < rank[x]
    decreases if x in rank then rank[x] else 0
  {
    assert RankedAt(g, rank, x);
    var p :| p in g[x] && (a == p || Reaches(g, rank, p, a));
    if a != p {
      ReachesInside(g, rank, p, a);
    }
  }

  lemma {:induction false} ReachesOn(g: Graph, rank: Rank, x: Node, y: Node, a: Node)
    requires Ranked(g, rank) && x in g && Reaches(g, rank, x, y)
    ensures y in g
    ensures Reaches(g, rank, y, a) ==> Reaches(g, rank, x, a)
    ensures a in g[y] ==> Reaches(g, rank, x, a)
    decreases if x in rank then rank[x] else 0
  {
    assert RankedAt(g, rank, x);
    ReachesInside(g, rank, x, y);
    var p :| p in g[x] && (y == p || Reaches(g, rank, p, y));
    if y != p {
      ReachesOn(g, rank, p, y, a);
    } else {
      assert RankedAt(g, rank, p);
      if a in g[p] {
        assert Reaches(g, rank, p, a);
      }
    }
  }

  /** What x reaches is its successors and what they reach. */
  lemma {:induction false} BelowStep(g: Graph, rank: Rank, x: Node, a: Node)
    requires Ranked(g, rank) && x in g
    ensures RankedAt(g, rank, x)
    ensures a in Below(g, rank, x) <==> exists p :: p in g[x] && (a == p || a in Below(g, rank, p))
  {
    assert RankedAt(g, rank, x);
    if exists p :: p in g[x] && (a == p || a in Below(g, rank, p)) {
      var p :| p in g[x] && (a == p || a in Below(g, rank, p));
    }
    if Reaches(g, rank, x, a) {
      ReachesInside(g, rank, x, a);
    }
  }

  /** A set that holds the successors of its members holds everything they reach. */
  lemma {:induction false} ClosedHoldsBelow(g: Graph, rank: Rank, s: set<Node>, x: Node, a: Node)
    requires Ranked(g, rank) && x in g && x in s && Reaches(g, rank, x, a)
    requires forall y :: y in s && y in g ==> g[y] <= s
    ensures a in s
    decreases if x in rank then rank[x] else 0
  {
    assert RankedAt(g, rank, x);
    var p :| p in g[x] && (a == p || Reaches(g, rank, p, a));
    assert g[x] <= s;
    if a != p {
      ClosedHoldsBelow(g, rank, s, p, a);
    }
  }

  /* Changing the graph */

  /** With fewer edges there is less to reach. */
  lemma {:induction false} FewerEdges(g: Graph, h: Graph, rank: Rank, x: Node, a: Node)
    requires Ranked(g, rank) && Ranked(h, rank) && x in h && Reaches(h, rank, x, a)
    requires forall y :: y in h ==> y in g && h[y] <= g[y]
    ensures Reaches(g, rank, x, a)
    decreases if x in rank then rank[x] else 0
  {
    assert RankedAt(h, rank, x) && RankedAt(g, rank, x);
    var p :| p in h[x] && (a == p || Reaches(h, rank, p, a));
    assert p in g[x];
    if a != p {
      FewerEdges(g, h, rank, p, a);
    }
  }

  /** Where no path meets a changed node, what is reached stays the same, whatever the ranks. */
  lemma {:induction false} SameEdges(g: Graph, rank: Rank, h: Graph, other: Rank, s: set<Node>, x: Node, a: Node)
    requires Ranked(g, rank) && Ranked(h, other) && x in g && x in s && Reaches(g, rank, x, a)
    requires forall y :: y in s && y in g ==> y in h && h[y] == g[y] && g[y] <= s
    ensures x in h && Reaches(h, other, x, a)
    decreases if x in rank then rank[x] else 0
  {
    assert RankedAt(g, rank, x) && RankedAt(h, other, x);
    var p :| p in g[x] && (a == p || Reaches(g, rank, p, a));
    assert p in s;
    if a != p {
      SameEdges(g, rank, h, other, s, p, a);
    }
  }

  /* Restricting the graph */

  /** The graph on the nodes of s alone. */
  ghost function Restrict(g: Graph, s: set<Node>): (h: Graph)
    ensures h.Keys == g.Keys * s
  {
    map x | x in g && x in s :: g[x] * s
  }

  lemma {:induction false} RestrictRanked(g: Graph, rank: Rank, s: set<Node>)
    requires Ranked(g, rank)
    ensures Ranked(Restrict(g, s), rank)
  {
    var h := Restrict(g, s);
    forall x | x in h
      ensures RankedAt(h, rank, x)
    {
      assert RankedAt(g, rank, x);
    }
  }

  lemma {:induction false} RestrictTwice(g: Graph, s: set<Node>, t: set<Node>)
    requires t <= s
    ensures Restrict(Restrict(g, s), t) == Restrict(g, t)
  {
    forall x | x in g
      ensures g[x] * s * t == g[x] * t
    {
    }
  }

  lemma {:induction false} RestrictAll(g: Graph, rank: Rank)
    requires Ranked(g, rank)
    ensures Restrict(g, g.Keys) == g
  {
    forall x | x in g
      ensures g[x] * g.Keys == g[x]
    {
      assert RankedAt(g, rank, x);
    }
  }

  /** On fewer nodes there is less to reach. */
  lemma {:induction false} RestrictReaches(g: Graph, rank: Rank, s: set<Node>, t: set<Node>, x: Node)
    requires Ranked(g, rank) && t <= s && x in g && x in t
    ensures Ranked(Restrict(g, s), rank) && Ranked(Restrict(g, t), rank)
    ensures Below(Restrict(g, t), rank, x) <= Below(Restrict(g, s), rank, x) * t
  {
    RestrictRanked(g, rank, s);
    RestrictRanked(g, rank, t);
    hide Ranked, Reaches;
    forall a | a in Below(Restrict(g, t), rank, x)
      ensures a in Below(Restrict(g, s), rank, x)
    {
      FewerEdges(Restrict(g, s), Restrict(g, t), rank, x, a);
    }
  }

  /** Nodes that hold their own successors lose nothing when the others go. */
  lemma {:induction false} RestrictClosed(g: Graph, rank: Rank, s: set<Node>, t: set<Node>, x: Node)
    requires Ranked(g, rank) && t <= s && x in g && x in t
    requires forall y :: y in t && y in g ==> g[y] * s <= t
    ensures Ranked(Restrict(g, s), rank) && Ranked(Restrict(g, t), rank)
    ensures Below(Restrict(g, t), rank, x) == Below(Restrict(g, s), rank, x) && Below(Restrict(g, s), rank, x) <= t
  {
    RestrictReaches(g, rank, s, t, x);
    var h, k := Restrict(g, s), Restrict(g, t);
    assert forall y :: y in t && y in h ==> y in k && k[y] == h[y] && h[y] <= t;
    hide Ranked, Reaches, Restrict;
    forall a | a in Below(h, rank, x)
      ensures a in Below(k, rank, x)
    {
      SameEdges(h, rank, k, rank, t, x, a);
      ReachesInside(k, rank, x, a);
    }
  }

  /** The given nodes with everything that reaches them. */
  ghost function Above(g: Graph, rank: Rank, roots: set<Node>): (s: set<Node>)
    requires Ranked(g, rank)
    ensures s <= g.Keys && roots * g.Keys <= s
  {
    set y | y in g && (y in roots || exists r :: r in roots && r in Below(g, rank, y))
  }

  /** What is left without them holds its own successors. */
  lemma {:induction false} AboveLeavesClosed(g: Graph, rank: Rank, roots: set<Node>, y: Node)
    requires Ranked(g, rank) && y in g && y !in Above(g, rank, roots)
    ensures g[y] <= g.Keys - Above(g, rank, roots)
  {
    assert RankedAt(g, rank, y);
    forall p | p in g[y]
      ensures p in g && p !in Above(g, rank, roots)
    {
      BelowStep(g, rank, y, p);
    }
  }

  lemma {:induction false} AboveJoin(g: Graph, rank: Rank, a: set<Node>, b: set<Node>)
    requires Ranked(g, rank)
    ensures Above(g, rank, a + b) == Above(g, rank, a) + Above(g, rank, b)
  {
    hide Below, Ranked;
  }

  /** Roots above other roots add nothing. */
  lemma {:induction false} AboveAbsorbs(g: Graph, rank: Rank, a: set<Node>, x: Node)
    requires Ranked(g, rank) && x in Above(g, rank, a)
    ensures Above(g, rank, a + {x}) == Above(g, rank, a)
  {
    forall y | y in Above(g, rank, {x})
      ensures y in Above(g, rank, a)
    {
      if y != x && x !in a {
        var r :| r in a && r in Below(g, rank, x);
        ReachesOn(g, rank, y, x, r);
      }
    }
    AboveJoin(g, rank, a, {x});
  }

  /* The reverse graph */

  ghost predicate IsReverse(g: Graph, c: Graph) {
    g.Keys == c.Keys && forall x, y :: x in g && y in g ==> (y in c[x] <==> x in g[y])
  }

  /** Ranks for the reverse graph. */
  ghost predicate Opposite(rank: Rank, other: Rank, g: Graph) {
    (forall x :: x in g ==> x in rank && x in other) &&
    forall x, y :: x in g && y in g && rank[x] < rank[y] ==> other[y] < other[x]
  }

  lemma {:induction false} ReverseRanked(g: Graph, c: Graph, rank: Rank, other: Rank)
    requires Ranked(g, rank) && IsReverse(g, c) && Opposite(rank, other, g) && forall x :: x in c ==> c[x] <= g.Keys
    ensures Ranked(c, other)
  {
    forall x | x in c
      ensures RankedAt(c, other, x)
    {
      forall p | p in c[x]
        ensures p in c && p in other && other[p] < other[x]
      {
        assert RankedAt(g, rank, p);
      }
    }
  }

  lemma {:induction false} ReverseReaches(g: Graph, c: Graph, rank: Rank, other: Rank, x: Node, a: Node)
    requires Ranked(g, rank) && Ranked(c, other) && IsReverse(g, c) && x in g && Reaches(g, rank, x, a)
    ensures a in c && Reaches(c, other, a, x)
    decreases if x in rank then rank[x] else 0
  {
    assert RankedAt(g, rank, x);
    var p :| p in g[x] && (a == p || Reaches(g, rank, p, a));
    assert RankedAt(c, other, p) && x in c[p];
    if a != p {
      ReverseReaches(g, c, rank, other, p, a);
      ReachesOn(c, other, a, p, x);
    } else {
      assert Reaches(c, other, p, x);
    }
  }

  /* Counting paths */

  /** A number of paths and the sum of the sizes of the nodes they end in. */
  datatype Load = Load(count: nat, size: nat) {
    function Plus(l: Load): Load { Load(count + l.count, size + l.size) }

    predicate Within(l: Load) { count <= l.count && size <= l.size }
  }

  const NO_LOAD: Load := Load(0, 0)

  type Sizes = map<Node, nat>

  function LoadOf(w: Sizes, x: Node): Load { Load(1, if x in w then w[x] else 0) }

  /** The paths that start at x, the empty one included. */
  ghost function Paths(g: Graph, rank: Rank, w: Sizes, x: Node): (n: Load)
    requires Ranked(g, rank) && x in g
    ensures n.count > 0
    decreases if x in rank then rank[x] else 0
  {
    assert RankedAt(g, rank, x);
    LoadOf(w, x).Plus(PathsOf(g, rank, w, g[x], rank[x]))
  }

  ghost predicate AllBelow(g: Graph, rank: Rank, s: set<Node>, r: nat) {
    forall p :: p in s ==> p in g && p in rank && rank[p] < r
  }

  /** The paths that start in s; r is any bound on the ranks there. */
  ghost function PathsOf(g: Graph, rank: Rank, w: Sizes, s: set<Node>, r: nat): Load
    requires Ranked(g, rank) && AllBelow(g, rank, s, r)
    decreases r, |s|
  {
    if s == {} then NO_LOAD
    else
      var p :| p in s;
      Paths(g, rank, w, p).Plus(PathsOf(g, rank, w, s - {p}, r))
  }

  lemma {:induction false} LoadsSwap(a: Load, b: Load, c: Load)
    ensures a.Plus(b.Plus(c)) == b.Plus(a.Plus(c)) && a.Plus(b) == b.Plus(a) && a.Plus(b.Plus(c)) == a.Plus(b).Plus(c)
  {
  }

  lemma {:induction false} PathsOfWithout(g: Graph, rank: Rank, w: Sizes, s: set<Node>, r: nat, p: Node)
    requires Ranked(g, rank) && AllBelow(g, rank, s, r) && p in s
    ensures PathsOf(g, rank, w, s, r) == Paths(g, rank, w, p).Plus(PathsOf(g, rank, w, s - {p}, r))
    decreases |s|
  {
    hide Paths, Ranked;
    var q :| q in s && PathsOf(g, rank, w, s, r) == Paths(g, rank, w, q).Plus(PathsOf(g, rank, w, s - {q}, r));
    if q != p {
      PathsOfWithout(g, rank, w, s - {q}, r, p);
      PathsOfWithout(g, rank, w, s - {p}, r, q);
      assert s - {q} - {p} == s - {p} - {q};
      LoadsSwap(Paths(g, rank, w, q), Paths(g, rank, w, p), PathsOf(g, rank, w, s - {p} - {q}, r));
    }
  }

  ghost predicate AllIn(g: Graph, q: seq<Node>) {
    forall i :: 0 <= i < |q| ==> q[i] in g
  }

  /** The paths that start at the entries of a queue, repetitions counted. */
  ghost function QueuePaths(g: Graph, rank: Rank, w: Sizes, q: seq<Node>): Load
    requires Ranked(g, rank) && AllIn(g, q)
  {
    if q == [] then NO_LOAD else QueuePaths(g, rank, w, q[..|q| - 1]).Plus(Paths(g, rank, w, q[|q| - 1]))
  }

  lemma {:induction false} QueueSnoc(g: Graph, rank: Rank, w: Sizes, q: seq<Node>, x: Node)
    requires Ranked(g, rank) && AllIn(g, q) && x in g
    ensures AllIn(g, q + [x]) && QueuePaths(g, rank, w, q + [x]) == QueuePaths(g, rank, w, q).Plus(Paths(g, rank, w, x))
  {
    hide Paths, Ranked;
    var all := q + [x];
    assert all[..|all| - 1] == q && all[|all| - 1] == x;
  }

  lemma {:induction false} QueuePop(g: Graph, rank: Rank, w: Sizes, q: seq<Node>)
    requires Ranked(g, rank) && AllIn(g, q) && q != []
    ensures AllIn(g, q[1..]) && QueuePaths(g, rank, w, q) == Paths(g, rank, w, q[0]).Plus(QueuePaths(g, rank, w, q[1..]))
  {
    hide QueuePaths, Paths, Ranked;
    var x, rest := q[0], q[1..];
    if rest == [] {
      assert q == [] + [x];
      QueueSnoc(g, rank, w, [], x);
      QueueEmpty(g, rank, w);
    } else {
      var front, last, middle := q[..|q| - 1], q[|q| - 1], rest[..|rest| - 1];
      QueuePop(g, rank, w, front);
      assert front[1..] == middle && q == front + [last] && rest == middle + [last] && last in q;
      QueueSnoc(g, rank, w, front, last);
      QueueSnoc(g, rank, w, middle, last);
    }
    LoadsAssociate();
  }

  lemma {:induction false} QueueEmpty(g: Graph, rank: Rank, w: Sizes)
    requires Ranked(g, rank)
    ensures QueuePaths(g, rank, w, []) == NO_LOAD
  {
  }

  lemma {:induction false} LoadsAssociate()
    ensures forall a: Load, b: Load, c: Load :: a.Plus(b).Plus(c) == a.Plus(b.Plus(c))
    ensures forall a: Load :: a.Plus(NO_LOAD) == a && NO_LOAD.Plus(a) == a
  {
  }

  /** A queue is no longer than the paths that start in it. */
  lemma {:induction false} QueueLength(g: Graph, rank: Rank, w: Sizes, q: seq<Node>)
    requires Ranked(g, rank) && AllIn(g, q)
    ensures |q| <= QueuePaths(g, rank, w, q).count
  {
    hide PathsOf, Ranked;
    if q != [] {
      QueueLength(g, rank, w, q[..|q| - 1]);
    }
  }

  /** Queueing a set in any order queues its paths. */
  lemma {:induction false} QueueOfSet(g: Graph, rank: Rank, w: Sizes, s: set<Node>, r: nat, q: seq<Node>)
    requires Ranked(g, rank) && AllBelow(g, rank, s, r) && |q| == |s| && forall x :: x in q <==> x in s
    ensures AllIn(g, q) && QueuePaths(g, rank, w, q) == PathsOf(g, rank, w, s, r)
    decreases |q|
  {
    hide QueuePaths, Paths, PathsOf, Ranked;
    if q == [] {
      QueueEmpty(g, rank, w);
      NoPaths(g, rank, w, r);
    } else {
      var front, last := q[..|q| - 1], q[|q| - 1];
      assert q == front + [last];
      LastIsNew(front, last, s);
      QueueOfSet(g, rank, w, s - {last}, r, front);
      PathsOfWithout(g, rank, w, s, r, last);
      QueueSnoc(g, rank, w, front, last);
      LoadsSwap(Paths(g, rank, w, last), PathsOf(g, rank, w, s - {last}, r), NO_LOAD);
    }
  }

  lemma {:induction false} NoPaths(g: Graph, rank: Rank, w: Sizes, r: nat)
    requires Ranked(g, rank)
    ensures PathsOf(g, rank, w, {}, r) == NO_LOAD
  {
  }

  /** A queue as long as its set repeats nothing. */
  lemma {:induction false} LastIsNew(front: seq<Node>, last: Node, s: set<Node>)
    requires |front| + 1 == |s| && forall x :: x in front + [last] <==> x in s
    ensures last in s && forall x :: x in front <==> x in s - {last}
  {
    assert last in front + [last];
    SetOfSeq(front);
    forall x | x in front
      ensures x in s
    {
      assert x in front + [last];
    }
    if last in front {
      SubsetIsSmaller(s, Entries(front));
    }
  }

  lemma {:induction false} SubsetIsSmaller(a: set<Node>, b: set<Node>)
    requires a <= b
    ensures |a| <= |b|
    decreases |a|
  {
    if a != {} {
      var x :| x in a;
      SubsetIsSmaller(a - {x}, b - {x});
    }
  }

  function Entries(q: seq<Node>): set<Node> { set x | x in q }

  lemma {:induction false} SetOfSeq(q: seq<Node>)
    ensures |Entries(q)| <= |q|
  {
    if q == [] {
      assert Entries(q) == {};
    } else {
      var front, last := q[..|q| - 1], q[|q| - 1];
      SetOfSeq(front);
      assert q == front + [last];
      assert Entries(q) == Entries(front) + {last};
    }
  }
}
