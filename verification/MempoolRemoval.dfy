/** Removing a set of entries from the pool: what RemoveStaged leaves behind and what that keeps. */
module MempoolRemoval {
  import opened Wrappers
  import opened Utxo
  import opened Dag
  import opened MempoolWalk
  import opened MempoolSpec

  /* The removal as a function */

  /** Parent links once the removed entries are cut out of them. */
  ghost function CutGraph(pool: Pool, s: set<TxId>): (g: Graph)
    ensures g.Keys == pool.Keys
  {
    map y | y in pool :: pool[y].parents - s
  }

  lemma {:induction false} CutIsRanked(pool: Pool, rank: Rank, s: set<TxId>)
    requires Ranked(ParentGraph(pool), rank)
    ensures Ranked(CutGraph(pool, s), rank)
  {
    forall x | x in pool
      ensures RankedAt(CutGraph(pool, s), rank, x)
    {
      assert RankedAt(ParentGraph(pool), rank, x);
    }
  }

  /** The entries whose descendant totals the removal of x lowers: its parents and what the cut links reach from them. */
  ghost function Touched(pool: Pool, rank: Rank, s: set<TxId>, x: TxId): set<TxId>
    requires Ranked(ParentGraph(pool), rank) && x in pool && pool[x].parents <= pool.Keys
  {
    CutIsRanked(pool, rank, s);
    AllReached(CutGraph(pool, s), rank, pool[x].parents)
  }

  /** Only ancestors are touched. */
  lemma {:induction false} TouchedAreAncestors(pool: Pool, rank: Rank, s: set<TxId>, x: TxId)
    requires Ranked(ParentGraph(pool), rank) && x in pool && pool[x].parents <= pool.Keys
    ensures Touched(pool, rank, s, x) <= Anc(pool, rank, x)
  {
    CutIsRanked(pool, rank, s);
    var g, h := ParentGraph(pool), CutGraph(pool, s);
    forall a | a in Touched(pool, rank, s, x)
      ensures a in Anc(pool, rank, x)
    {
      BelowStep(g, rank, x, a);
      if a !in pool[x].parents {
        var p :| p in pool[x].parents && Reaches(h, rank, p, a);
        FewerEdges(g, h, rank, p, a);
        assert a in Below(g, rank, p);
      }
    }
  }

  ghost predicate Removable(pool: Pool, rank: Rank, s: set<TxId>) {
    Ranked(ParentGraph(pool), rank) && LinksRight(pool) && s <= pool.Keys
  }

  lemma {:induction false} ParentsInside(pool: Pool, x: TxId)
    requires LinksRight(pool) && x in pool
    ensures pool[x].parents <= pool.Keys
  {
    assert LinksAt(pool, x);
  }

  /** The removed entries of d that touch y. */
  ghost function Hits(pool: Pool, rank: Rank, s: set<TxId>, d: set<TxId>, y: TxId): (r: set<TxId>)
    requires Removable(pool, rank, s) && d <= s
    ensures r <= d
  {
    set x | x in d && (ParentsInside(pool, x); y in Touched(pool, rank, s, x))
  }

  ghost function AncIn(pool: Pool, rank: Rank, d: set<TxId>, y: TxId): (r: set<TxId>)
    requires Ranked(ParentGraph(pool), rank) && y in pool
    ensures r <= d && r <= pool.Keys
  {
    set x | x in d && x in Anc(pool, rank, y)
  }

  /** An entry while s is being removed: d1, d2 and d3 are the parts whose three loops are done. */
  ghost function MidEntry(pool: Pool, rank: Rank, s: set<TxId>, d1: set<TxId>, d2: set<TxId>, d3: set<TxId>, y: TxId): TxEntry
    requires Removable(pool, rank, s) && d1 <= s && d2 <= s && d3 <= s && y in pool
  {
    var e, h := pool[y], Total(pool, Hits(pool, rank, s, d3, y));
    e.(anc := e.anc.Minus(Total(pool, AncIn(pool, rank, d1, y))),
       parents := e.parents - d2,
       children := if y in s then e.children else e.children - d3,
       descCount := e.descCount - h.count, descSize := e.descSize - h.size, descFee := e.descFee - h.fee)
  }

  ghost function Mid(pool: Pool, rank: Rank, s: set<TxId>, d1: set<TxId>, d2: set<TxId>, d3: set<TxId>): (p: Pool)
    requires Removable(pool, rank, s) && d1 <= s && d2 <= s && d3 <= s
    ensures p.Keys == pool.Keys
  {
    map y | y in pool :: MidEntry(pool, rank, s, d1, d2, d3, y)
  }

  /** The pool after s is removed; update says whether descendants' ancestor totals are lowered. */
  ghost function AfterRemoval(pool: Pool, rank: Rank, s: set<TxId>, update: bool): (p: Pool)
    requires Removable(pool, rank, s)
    ensures p.Keys == pool.Keys - s
  {
    Mid(pool, rank, s, if update then s else {}, s, s) - s
  }

  lemma {:induction false} AfterAt(pool: Pool, rank: Rank, s: set<TxId>, update: bool, y: TxId)
    requires Removable(pool, rank, s) && y in pool && y !in s
    ensures var e, r := pool[y], AfterRemoval(pool, rank, s, update)[y];
            r.tx == e.tx && r.Own() == e.Own() && r.usage == e.usage && r.size == e.size && r.time == e.time &&
            r.parents == e.parents - s && r.children == e.children - s &&
            r.anc == (if update then e.anc.Minus(Total(pool, AncIn(pool, rank, s, y))) else e.anc) &&
            var h := Total(pool, Hits(pool, rank, s, s, y));
            r.descCount == e.descCount - h.count && r.descSize == e.descSize - h.size
  {
    TotalOfNone(pool);
    assert AncIn(pool, rank, {}, y) == {};
    hide Total, Hits, AncIn, Removable, LinksRight, Ranked;
    assert pool[y].anc.Minus(NOTHING) == pool[y].anc;
  }

  /* What removal keeps in any case */

  lemma {:induction false} LinksAfter(pool: Pool, rank: Rank, s: set<TxId>, update: bool)
    requires Removable(pool, rank, s)
    ensures LinksRight(AfterRemoval(pool, rank, s, update)) && Ranked(ParentGraph(AfterRemoval(pool, rank, s, update)), rank)
  {
    var after := AfterRemoval(pool, rank, s, update);
    hide AfterRemoval, Total, Hits, AncIn;
    forall y | y in after
      ensures LinksAt(after, y)
    {
      AfterAt(pool, rank, s, update, y);
      assert LinksAt(pool, y);
      assert InputParents(after, pool[y].tx) == InputParents(pool, pool[y].tx) - s;
      forall z
        ensures z in after[y].children <==> z in after && y in after[z].parents
      {
        if z in after {
          AfterAt(pool, rank, s, update, z);
        }
      }
    }
    forall y | y in after
      ensures RankedAt(ParentGraph(after), rank, y)
    {
      AfterAt(pool, rank, s, update, y);
      assert RankedAt(ParentGraph(pool), rank, y) && LinksAt(after, y);
    }
  }

  /** Survivors keep only ancestors they had, and none that was removed. */
  lemma {:induction false} FewerAncestors(pool: Pool, rank: Rank, s: set<TxId>, update: bool, y: TxId)
    requires Removable(pool, rank, s) && y in pool && y !in s
    ensures Ranked(ParentGraph(AfterRemoval(pool, rank, s, update)), rank)
    ensures Anc(AfterRemoval(pool, rank, s, update), rank, y) <= Anc(pool, rank, y) - s
  {
    LinksAfter(pool, rank, s, update);
    var after := AfterRemoval(pool, rank, s, update);
    var g, h := ParentGraph(pool), ParentGraph(after);
    forall z | z in h
      ensures z in g && h[z] <= g[z]
    {
      AfterAt(pool, rank, s, update, z);
    }
    forall a | a in Anc(after, rank, y)
      ensures a in Anc(pool, rank, y) - s
    {
      FewerEdges(g, h, rank, y, a);
    }
  }

  lemma {:induction false} TotalsAfter(pool: Pool, rank: Rank, s: set<TxId>, update: bool, t: set<TxId>)
    requires Removable(pool, rank, s) && t <= pool.Keys - s
    ensures Total(AfterRemoval(pool, rank, s, update), t) == Total(pool, t)
    ensures Usage(AfterRemoval(pool, rank, s, update), t) == Usage(pool, t)
  {
    var after := AfterRemoval(pool, rank, s, update);
    hide AfterRemoval, Total, Usage, Hits, AncIn;
    forall x | x in t
      ensures pool[x].Own() == after[x].Own() && pool[x].usage == after[x].usage
    {
      AfterAt(pool, rank, s, update, x);
    }
    TotalSame(pool, after, t);
    UsageSame(pool, after, t);
  }

  lemma {:induction false} HitsAreDescendants(pool: Pool, rank: Rank, s: set<TxId>, y: TxId)
    requires Removable(pool, rank, s) && y in pool
    ensures Hits(pool, rank, s, s, y) <= Desc(pool, rank, y)
  {
    forall x | x in Hits(pool, rank, s, s, y)
      ensures x in Desc(pool, rank, y)
    {
      ParentsInside(pool, x);
      TouchedAreAncestors(pool, rank, s, x);
    }
  }

  lemma {:induction false} FewerDescendants(pool: Pool, rank: Rank, s: set<TxId>, update: bool, y: TxId)
    requires Removable(pool, rank, s) && y in pool && y !in s
    ensures Ranked(ParentGraph(AfterRemoval(pool, rank, s, update)), rank)
    ensures Desc(AfterRemoval(pool, rank, s, update), rank, y) <= Desc(pool, rank, y) - s
  {
    LinksAfter(pool, rank, s, update);
    var after := AfterRemoval(pool, rank, s, update);
    hide AfterRemoval, Anc;
    forall x | x in Desc(after, rank, y)
      ensures x in Desc(pool, rank, y) - s
    {
      FewerAncestors(pool, rank, s, update, x);
    }
  }

  lemma {:induction false} PlusParts(a: Weight, b: Weight)
    ensures a.Plus(b).count == a.count + b.count && a.Plus(b).size == a.size + b.size
  {
  }

  /** Descendant totals never fall below the truth, whatever is removed. */
  lemma {:induction false} CoveredAfter(pool: Pool, rank: Rank, s: set<TxId>, update: bool, y: TxId)
    requires Removable(pool, rank, s) && y in pool && y !in s && DescendantsAt(pool, rank, y)
    ensures Ranked(ParentGraph(AfterRemoval(pool, rank, s, update)), rank)
    ensures DescendantsAt(AfterRemoval(pool, rank, s, update), rank, y)
  {
    hide Total, AfterRemoval, Hits, Desc, AncIn;
    var after := AfterRemoval(pool, rank, s, update);
    FewerDescendants(pool, rank, s, update, y);
    var hits, was, now := Hits(pool, rank, s, s, y), Desc(pool, rank, y), Desc(after, rank, y);
    AfterAt(pool, rank, s, update, y);
    HitsAreDescendants(pool, rank, s, y);
    TotalsAfter(pool, rank, s, update, now);
    TotalSplit(pool, was, hits);
    TotalGrows(pool, now, was - hits);
    PlusParts(Total(pool, hits), Total(pool, was - hits));
  }

  /** The entry's removed ancestors are no longer counted, or still are; what is left is covered either way. */
  lemma {:induction false} AncestorsCoveredAfterAt(pool: Pool, rank: Rank, s: set<TxId>, update: bool, y: TxId)
    requires Removable(pool, rank, s) && y in pool && y !in s && AncestorsCoveredAt(pool, rank, y)
    ensures Ranked(ParentGraph(AfterRemoval(pool, rank, s, update)), rank)
    ensures AncestorsCoveredAt(AfterRemoval(pool, rank, s, update), rank, y)
  {
    hide Total, AfterRemoval, Hits, Anc, Ranked, LinksRight;
    var after := AfterRemoval(pool, rank, s, update);
    FewerAncestors(pool, rank, s, update, y);
    AfterAt(pool, rank, s, update, y);
    var was, now, gone := Anc(pool, rank, y), Anc(after, rank, y), AncIn(pool, rank, s, y);
    TotalsAfter(pool, rank, s, update, now);
    TotalSplit(pool, was, gone);
    TotalFacts(pool, gone);
    TotalGrows(pool, now, was - gone);
    PlusParts(Total(pool, gone), Total(pool, was - gone));
    MinusParts(pool[y].anc, Total(pool, gone));
  }

  lemma {:induction false} MinusParts(a: Weight, b: Weight)
    ensures a.Minus(b).count == a.count - b.count && a.Minus(b).size == a.size - b.size
  {
  }

  lemma {:induction false} AncestorsCoveredAfter(pool: Pool, rank: Rank, s: set<TxId>, update: bool)
    requires Removable(pool, rank, s) && AncestorsCovered(pool, rank)
    ensures Ranked(ParentGraph(AfterRemoval(pool, rank, s, update)), rank)
    ensures AncestorsCovered(AfterRemoval(pool, rank, s, update), rank)
  {
    hide AncestorsCoveredAt, AfterRemoval;
    LinksAfter(pool, rank, s, update);
    var after := AfterRemoval(pool, rank, s, update);
    forall y | y in after
      ensures AncestorsCoveredAt(after, rank, y)
    {
      assert AncestorsCoveredAt(pool, rank, y);
      AncestorsCoveredAfterAt(pool, rank, s, update, y);
    }
  }

  lemma {:induction false} DescendantsAfter(pool: Pool, rank: Rank, s: set<TxId>, update: bool)
    requires Removable(pool, rank, s) && DescendantsCovered(pool, rank)
    ensures Ranked(ParentGraph(AfterRemoval(pool, rank, s, update)), rank)
    ensures DescendantsCovered(AfterRemoval(pool, rank, s, update), rank)
  {
    LinksAfter(pool, rank, s, update);
    var after := AfterRemoval(pool, rank, s, update);
    hide DescendantsAt, AfterRemoval;
    forall y | y in after
      ensures DescendantsAt(after, rank, y)
    {
      assert DescendantsAt(pool, rank, y);
      CoveredAfter(pool, rank, s, update, y);
    }
  }

  /* Removing everything below */

  ghost predicate ClosedDown(pool: Pool, s: set<TxId>) {
    s <= pool.Keys && forall x, y :: x in s && y in pool[x].children ==> y in s
  }

  lemma {:induction false} SurvivorEdges(pool: Pool, rank: Rank, s: set<TxId>, update: bool, z: TxId)
    requires Removable(pool, rank, s) && ClosedDown(pool, s) && z in pool && z !in s
    ensures AfterRemoval(pool, rank, s, update)[z].parents == pool[z].parents && pool[z].parents <= pool.Keys - s
  {
    hide AfterRemoval, Total, Hits, AncIn;
    AfterAt(pool, rank, s, update, z);
    ParentsInside(pool, z);
    forall p | p in pool[z].parents
      ensures p !in s
    {
      assert LinksAt(pool, p);
    }
    assert pool[z].parents - s == pool[z].parents;
  }

  lemma {:induction false} AncestorSurvives(pool: Pool, rank: Rank, s: set<TxId>, update: bool, y: TxId, a: TxId)
    requires Removable(pool, rank, s) && ClosedDown(pool, s) && y in pool && y !in s && a in Anc(pool, rank, y)
    requires Ranked(ParentGraph(AfterRemoval(pool, rank, s, update)), rank)
    ensures a in Anc(AfterRemoval(pool, rank, s, update), rank, y)
  {
    var after := AfterRemoval(pool, rank, s, update);
    var g, h := ParentGraph(pool), ParentGraph(after);
    var rest := pool.Keys - s;
    hide AfterRemoval, ClosedDown, Removable, Ranked, Reaches;
    forall z | z in rest
      ensures z in h && h[z] == g[z] && g[z] <= rest
    {
      SurvivorEdges(pool, rank, s, update, z);
    }
    SameEdges(g, rank, h, rank, rest, y, a);
    ReachesInside(h, rank, y, a);
  }

  /** When whole families go, the survivors' ancestors are untouched. */
  lemma {:induction false} SurvivorsKeepAncestors(pool: Pool, rank: Rank, s: set<TxId>, update: bool, y: TxId)
    requires Removable(pool, rank, s) && ClosedDown(pool, s) && y in pool && y !in s
    ensures Ranked(ParentGraph(AfterRemoval(pool, rank, s, update)), rank)
    ensures Anc(AfterRemoval(pool, rank, s, update), rank, y) == Anc(pool, rank, y) && Anc(pool, rank, y) !! s
  {
    hide AfterRemoval, ClosedDown, Anc;
    FewerAncestors(pool, rank, s, update, y);
    var after := AfterRemoval(pool, rank, s, update);
    forall a | a in Anc(pool, rank, y)
      ensures a in Anc(after, rank, y)
    {
      AncestorSurvives(pool, rank, s, update, y, a);
    }
  }

  /* Removing one entry and keeping its descendants */

  /** A path either avoids x or goes through it. */
  lemma {:induction false} AroundOrThrough(g: Graph, h: Graph, rank: Rank, x: Node, y: Node, a: Node)
    requires Ranked(g, rank) && Ranked(h, rank) && y in g && y != x && a != x && Reaches(g, rank, y, a)
    requires forall z :: z in g && z != x ==> z in h && h[z] == g[z] - {x}
    ensures y in h && (Reaches(h, rank, y, a) || (x in g && Reaches(g, rank, y, x) && Reaches(g, rank, x, a)))
    decreases if y in rank then rank[y] else 0
  {
    assert RankedAt(g, rank, y) && RankedAt(h, rank, y);
    var p :| p in g[y] && (a == p || Reaches(g, rank, p, a));
    if p == x {
      assert Reaches(g, rank, y, x);
    } else if a != p {
      AroundOrThrough(g, h, rank, x, p, a);
      if !Reaches(h, rank, p, a) {
        assert Reaches(g, rank, y, x);
      } else {
        assert p in h[y];
      }
    } else {
      assert p in h[y];
    }
  }

  /** Without x every entry above it can still be reached from every entry below it. */
  ghost predicate StillReached(pool: Pool, rank: Rank, x: TxId)
    requires Ranked(ParentGraph(pool), rank) && x in pool
  {
    CutIsRanked(pool, rank, {x});
    forall d, a :: d in Desc(pool, rank, x) && a in Anc(pool, rank, x) ==> a in Below(CutGraph(pool, {x}), rank, d)
  }

  /** What an entry reaches over the links that are left is what its ancestors will be. */
  lemma {:induction false} CutIsAfter(pool: Pool, rank: Rank, s: set<TxId>, update: bool, y: TxId)
    requires Removable(pool, rank, s) && y in pool && y !in s
    ensures Ranked(ParentGraph(AfterRemoval(pool, rank, s, update)), rank) && Ranked(CutGraph(pool, s), rank)
    ensures Anc(AfterRemoval(pool, rank, s, update), rank, y) == Below(CutGraph(pool, s), rank, y)
  {
    CutIsRanked(pool, rank, s);
    LinksAfter(pool, rank, s, update);
    var after := AfterRemoval(pool, rank, s, update);
    var g, h, rest := CutGraph(pool, s), ParentGraph(after), pool.Keys - s;
    hide AfterRemoval, Ranked, Reaches;
    forall z | z in rest
      ensures z in g && z in h && g[z] == h[z] && g[z] <= rest
    {
      AfterAt(pool, rank, s, update, z);
      ParentsInside(pool, z);
    }
    forall a
      ensures a in Below(g, rank, y) <==> a in Below(h, rank, y)
    {
      if a in Below(g, rank, y) {
        SameEdges(g, rank, h, rank, rest, y, a);
        ReachesInside(h, rank, y, a);
      }
      if a in Below(h, rank, y) {
        SameEdges(h, rank, g, rank, rest, y, a);
      }
    }
  }

  lemma {:induction false} ExactMeansOneFewer(pool: Pool, rank: Rank, x: TxId, y: TxId)
    requires Removable(pool, rank, {x}) && y in pool && y != x
    requires Ranked(ParentGraph(AfterRemoval(pool, rank, {x}, true)), rank)
    requires StillReached(pool, rank, x)
    ensures Anc(AfterRemoval(pool, rank, {x}, true), rank, y) == Anc(pool, rank, y) - {x}
  {
    var after := AfterRemoval(pool, rank, {x}, true);
    FewerAncestors(pool, rank, {x}, true, y);
    var g, h := ParentGraph(pool), ParentGraph(after);
    forall z | z in g && z != x
      ensures z in h && h[z] == g[z] - {x}
    {
      AfterAt(pool, rank, {x}, true, z);
    }
    forall a | a in Anc(pool, rank, y) && a != x
      ensures a in Anc(after, rank, y)
    {
      AroundOrThrough(g, h, rank, x, y, a);
      if !Reaches(h, rank, y, a) {
        assert y in Desc(pool, rank, x) && a in Anc(pool, rank, x);
        CutIsAfter(pool, rank, {x}, true, y);
      }
    }
  }

  lemma {:induction false} TotalOfOne(pool: Pool, x: TxId)
    requires x in pool
    ensures Total(pool, {x}) == pool[x].Own()
  {
    TotalOfNone(pool);
    TotalWithout(pool, {x}, x);
    assert {x} - {x} == {};
    hide Total;
    assert pool[x].Own().Plus(NOTHING) == pool[x].Own();
  }

  lemma {:induction false} AncInOne(pool: Pool, rank: Rank, x: TxId, y: TxId)
    requires Ranked(ParentGraph(pool), rank) && x in pool && y in pool
    ensures Total(pool, AncIn(pool, rank, {x}, y)) == if x in Anc(pool, rank, y) then pool[x].Own() else NOTHING
  {
    hide Total, Anc, AncIn;
    TotalOfNone(pool);
    TotalOfOne(pool, x);
    AncInIsOne(pool, rank, x, y);
  }

  lemma {:induction false} AncInIsOne(pool: Pool, rank: Rank, x: TxId, y: TxId)
    requires Ranked(ParentGraph(pool), rank) && x in pool && y in pool
    ensures AncIn(pool, rank, {x}, y) == if x in Anc(pool, rank, y) then {x} else {}
  {
    hide Anc, Ranked;
    var r := AncIn(pool, rank, {x}, y);
    assert r <= {x} && (x in r <==> x in Anc(pool, rank, y));
  }

  /** What the code leaves as the ancestor total: that of the old ancestors without x. */
  lemma {:induction false} TotalLeft(pool: Pool, rank: Rank, x: TxId, y: TxId)
    requires Removable(pool, rank, {x}) && y in pool && y != x && AncestorsAt(pool, rank, y)
    ensures AfterRemoval(pool, rank, {x}, true)[y].anc == pool[y].Own().Plus(Total(pool, Anc(pool, rank, y) - {x}))
  {
    hide AfterRemoval, Total, Anc, AncIn, Hits;
    var was := Anc(pool, rank, y);
    AfterAt(pool, rank, {x}, true, y);
    AncInOne(pool, rank, x, y);
    if x in was {
      TotalWithout(pool, was, x);
      OneLess(pool[y].Own(), pool[x].Own(), Total(pool, was - {x}));
    } else {
      assert was - {x} == was;
      assert pool[y].anc.Minus(NOTHING) == pool[y].anc;
    }
  }

  lemma {:induction false} SubsetTotals(pool: Pool, own: Weight, a: set<TxId>, b: set<TxId>)
    requires a <= b <= pool.Keys
    ensures own.Plus(Total(pool, a)) == own.Plus(Total(pool, b)) <==> a == b
  {
    hide Total;
    TotalFacts(pool, a);
    TotalFacts(pool, b);
    PlusParts(own, Total(pool, a));
    PlusParts(own, Total(pool, b));
    SameSize(a, b);
  }

  /** It is the truth exactly when the entry lost x and nothing else. */
  lemma {:induction false} TotalIsExact(pool: Pool, rank: Rank, x: TxId, y: TxId)
    requires Removable(pool, rank, {x}) && y in pool && y != x && AncestorsAt(pool, rank, y)
    ensures Ranked(ParentGraph(AfterRemoval(pool, rank, {x}, true)), rank)
    ensures AncestorsAt(AfterRemoval(pool, rank, {x}, true), rank, y) <==>
            Anc(AfterRemoval(pool, rank, {x}, true), rank, y) == Anc(pool, rank, y) - {x}
  {
    TotalLeft(pool, rank, x, y);
    hide AfterRemoval, Total, Anc, AncIn, Hits;
    var after := AfterRemoval(pool, rank, {x}, true);
    FewerAncestors(pool, rank, {x}, true, y);
    var was, now := Anc(pool, rank, y), Anc(after, rank, y);
    AfterAt(pool, rank, {x}, true, y);
    TotalsAfter(pool, rank, {x}, true, now);
    SubsetTotals(pool, pool[y].Own(), now, was - {x});
  }

  lemma {:induction false} OneLess(own: Weight, x: Weight, rest: Weight)
    ensures own.Plus(x.Plus(rest)).Minus(x) == own.Plus(rest) && own.Plus(x.Plus(rest)).count == own.count + x.count + rest.count
    ensures own.Plus(rest).count == own.count + rest.count
  {
  }

  lemma {:induction false} SameSize(a: set<TxId>, b: set<TxId>)
    requires a <= b
    ensures |a| <= |b| && (|a| == |b| ==> a == b)
    decreases |a|
  {
    if a != {} {
      var x :| x in a;
      SameSize(a - {x}, b - {x});
      assert a == a - {x} + {x} && b == b - {x} + {x};
    } else if |b| == 0 {
      assert b == {};
    }
  }

  lemma {:induction false} ReachedMeansExact(pool: Pool, rank: Rank, x: TxId)
    requires Removable(pool, rank, {x}) && x in pool && AncestorsRight(pool, rank)
    requires Ranked(ParentGraph(AfterRemoval(pool, rank, {x}, true)), rank)
    requires StillReached(pool, rank, x)
    ensures AncestorsRight(AfterRemoval(pool, rank, {x}, true), rank)
  {
    var after := AfterRemoval(pool, rank, {x}, true);
    hide AfterRemoval, AncestorsAt, Anc, Total, StillReached;
    forall y | y in after
      ensures AncestorsAt(after, rank, y)
    {
      assert AncestorsAt(pool, rank, y);
      TotalIsExact(pool, rank, x, y);
      ExactMeansOneFewer(pool, rank, x, y);
    }
  }

  lemma {:induction false} ExactMeansReached(pool: Pool, rank: Rank, x: TxId, d: TxId, a: TxId)
    requires Removable(pool, rank, {x}) && x in pool && AncestorsRight(pool, rank)
    requires Ranked(ParentGraph(AfterRemoval(pool, rank, {x}, true)), rank)
    requires AncestorsRight(AfterRemoval(pool, rank, {x}, true), rank)
    requires d in Desc(pool, rank, x) && a in Anc(pool, rank, x)
    ensures d in AfterRemoval(pool, rank, {x}, true) && a in Anc(AfterRemoval(pool, rank, {x}, true), rank, d)
  {
    var after := AfterRemoval(pool, rank, {x}, true);
    hide AfterRemoval, AncestorsAt, Anc, Total;
    NotItsOwnAncestor(pool, rank, x);
    AncOfAncestor(pool, rank, d, x, a);
    assert AncestorsAt(pool, rank, d) && AncestorsAt(after, rank, d);
    TotalIsExact(pool, rank, x, d);
  }

  /**
   Removing an entry alone keeps all ancestor totals exact if and only if everything above it can still be reached from
   everything below it some other way.
   */
  lemma {:induction false} SelfRemovalExactIff(pool: Pool, rank: Rank, x: TxId)
    requires Removable(pool, rank, {x}) && x in pool && AncestorsRight(pool, rank)
    ensures Ranked(ParentGraph(AfterRemoval(pool, rank, {x}, true)), rank)
    ensures AncestorsRight(AfterRemoval(pool, rank, {x}, true), rank) <==> StillReached(pool, rank, x)
  {
    hide AfterRemoval, AncestorsRight, Anc, Desc;
    LinksAfter(pool, rank, {x}, true);
    CutIsRanked(pool, rank, {x});
    if StillReached(pool, rank, x) {
      ReachedMeansExact(pool, rank, x);
    }
    if AncestorsRight(AfterRemoval(pool, rank, {x}, true), rank) {
      forall d, a | d in Desc(pool, rank, x) && a in Anc(pool, rank, x)
        ensures a in Below(CutGraph(pool, {x}), rank, d)
      {
        ExactMeansReached(pool, rank, x, d, a);
        CutIsAfter(pool, rank, {x}, true, d);
      }
    }
  }

  /** In particular when nothing is above it, as for the transactions of a block taken parents first. */
  lemma {:induction false} ParentlessRemovalIsExact(pool: Pool, rank: Rank, x: TxId)
    requires Removable(pool, rank, {x}) && x in pool && AncestorsRight(pool, rank) && pool[x].parents == {}
    ensures Ranked(ParentGraph(AfterRemoval(pool, rank, {x}, true)), rank)
    ensures AncestorsRight(AfterRemoval(pool, rank, {x}, true), rank)
  {
    AncOfParents(pool, rank, x);
    StartIsReached(ParentGraph(pool), rank, {});
    SelfRemovalExactIff(pool, rank, x);
  }

  /** But a child taken before its parent leaves wrong totals behind, whenever it was some entry's only parent. */
  lemma {:induction false} ChildFirstRemovalIsNotExact(pool: Pool, rank: Rank, x: TxId, p: TxId, d: TxId)
    requires Removable(pool, rank, {x}) && x in pool && AncestorsRight(pool, rank)
    requires p in pool[x].parents && p in pool && d in pool && pool[d].parents == {x}
    ensures Ranked(ParentGraph(AfterRemoval(pool, rank, {x}, true)), rank)
    ensures !AncestorsRight(AfterRemoval(pool, rank, {x}, true), rank)
  {
    SelfRemovalExactIff(pool, rank, x);
    BelowStep(ParentGraph(pool), rank, x, p);
    BelowStep(ParentGraph(pool), rank, d, x);
    assert p in Anc(pool, rank, x) && d in Desc(pool, rank, x);
    assert d != x by { NotItsOwnAncestor(pool, rank, x); }
    CutIsRanked(pool, rank, {x});
    hide AfterRemoval, AncestorsRight;
    BelowStep(CutGraph(pool, {x}), rank, d, p);
    assert p !in Below(CutGraph(pool, {x}), rank, d);
  }

  /* Descendant totals when whole families go */

  ghost predicate DescendantsExactAt(pool: Pool, rank: Rank, y: TxId)
    requires Ranked(ParentGraph(pool), rank) && y in pool
  {
    var t := Total(pool, Desc(pool, rank, y));
    pool[y].descCount == 1 + t.count && pool[y].descSize == pool[y].size + t.size
  }

  /** One can climb from x to y passing at most one entry of s on the way. */
  ghost predicate NearlyBelow(pool: Pool, rank: Rank, s: set<TxId>, x: TxId, y: TxId)
    requires Ranked(ParentGraph(pool), rank) && x in pool
  {
    y in pool[x].parents ||
    exists p, q :: p in pool[x].parents && p in pool && q in pool[p].parents && q in pool && q !in s &&
                   (q == y || y in Anc(pool, rank, q))
  }

  /** Above a survivor of a family removal, cutting changes nothing. */
  lemma {:induction false} CutAboveSurvivors(pool: Pool, rank: Rank, s: set<TxId>, q: TxId, y: TxId)
    requires Removable(pool, rank, s) && ClosedDown(pool, s) && q in pool && q !in s
    requires Ranked(CutGraph(pool, s), rank)
    ensures y in Below(CutGraph(pool, s), rank, q) <==> y in Anc(pool, rank, q)
  {
    var g, h, rest := ParentGraph(pool), CutGraph(pool, s), pool.Keys - s;
    forall z | z in rest
      ensures h[z] == g[z] && g[z] <= rest
    {
      SurvivorEdges(pool, rank, s, false, z);
    }
    hide AfterRemoval, ClosedDown, Removable, Ranked, Reaches;
    if Reaches(g, rank, q, y) {
      SameEdges(g, rank, h, rank, rest, q, y);
    }
    if Reaches(h, rank, q, y) {
      FewerEdges(g, h, rank, q, y);
    }
  }

  lemma {:induction false} NearIsTouched(pool: Pool, rank: Rank, s: set<TxId>, x: TxId, y: TxId)
    requires Removable(pool, rank, s) && ClosedDown(pool, s) && x in pool && pool[x].parents <= pool.Keys && y in pool
    ensures y in Touched(pool, rank, s, x) <==> NearlyBelow(pool, rank, s, x, y)
  {
    CutIsRanked(pool, rank, s);
    var h := CutGraph(pool, s);
    forall p | p in pool[x].parents
      ensures y in Below(h, rank, p) <==>
              exists q :: q in pool[p].parents && q in pool && q !in s && (q == y || y in Anc(pool, rank, q))
    {
      BelowStep(h, rank, p, y);
      ParentsInside(pool, p);
      forall q | q in h[p]
        ensures y in Below(h, rank, q) <==> y in Anc(pool, rank, q)
      {
        CutAboveSurvivors(pool, rank, s, q, y);
      }
    }
  }

  lemma {:induction false} DescendantsLeft(pool: Pool, rank: Rank, s: set<TxId>, y: TxId)
    requires Removable(pool, rank, s) && ClosedDown(pool, s) && y in pool && y !in s
    ensures Ranked(ParentGraph(AfterRemoval(pool, rank, s, false)), rank)
    ensures Desc(AfterRemoval(pool, rank, s, false), rank, y) == Desc(pool, rank, y) - s
  {
    LinksAfter(pool, rank, s, false);
    var after := AfterRemoval(pool, rank, s, false);
    hide AfterRemoval, Anc;
    forall z | z in after
      ensures y in Anc(after, rank, z) <==> y in Anc(pool, rank, z)
    {
      SurvivorsKeepAncestors(pool, rank, s, false, z);
    }
  }

  lemma {:induction false} SameTotals(pool: Pool, a: set<TxId>, b: set<TxId>)
    requires a <= b <= pool.Keys
    ensures Total(pool, a).count == Total(pool, b).count && Total(pool, a).size == Total(pool, b).size <==> a == b
  {
    hide Total;
    TotalFacts(pool, a);
    TotalFacts(pool, b);
    SameSize(a, b);
  }

  /** The totals left are those of the old descendants without the ones that touched y. */
  lemma {:induction false} CountedAfter(pool: Pool, rank: Rank, s: set<TxId>, y: TxId)
    requires Removable(pool, rank, s) && y in pool && y !in s && DescendantsExactAt(pool, rank, y)
    ensures var r := AfterRemoval(pool, rank, s, false)[y];
            var t := Total(pool, Desc(pool, rank, y) - Hits(pool, rank, s, s, y));
            r.size == pool[y].size && r.descCount == 1 + t.count && r.descSize == r.size + t.size
  {
    hide Total, AfterRemoval, Hits, Desc, AncIn;
    AfterAt(pool, rank, s, false, y);
    HitsAreDescendants(pool, rank, s, y);
    var was, hits := Desc(pool, rank, y), Hits(pool, rank, s, s, y);
    TotalSplit(pool, was, hits);
    PlusParts(Total(pool, hits), Total(pool, was - hits));
  }

  lemma {:induction false} ExactWhenAllHit(pool: Pool, rank: Rank, s: set<TxId>, y: TxId)
    requires Removable(pool, rank, s) && ClosedDown(pool, s) && y in pool && y !in s
    requires DescendantsExactAt(pool, rank, y)
    ensures Ranked(ParentGraph(AfterRemoval(pool, rank, s, false)), rank)
    ensures DescendantsExactAt(AfterRemoval(pool, rank, s, false), rank, y) <==>
            Desc(pool, rank, y) - s == Desc(pool, rank, y) - Hits(pool, rank, s, s, y)
  {
    hide Total, AfterRemoval, Hits, Desc, AncIn, ClosedDown, LinksRight, Ranked;
    DescendantsLeft(pool, rank, s, y);
    CountedAfter(pool, rank, s, y);
    var was, hits := Desc(pool, rank, y), Hits(pool, rank, s, s, y);
    TotalsAfter(pool, rank, s, false, was - s);
    SameTotals(pool, was - s, was - hits);
  }

  /**
   Removing whole families keeps the descendant totals of a survivor exact if and only if none of its removed
   descendants is separated from it by two removed entries or more.
   */
  lemma {:induction false} FamilyRemovalExactIff(pool: Pool, rank: Rank, s: set<TxId>, y: TxId)
    requires Removable(pool, rank, s) && ClosedDown(pool, s) && y in pool && y !in s
    requires DescendantsExactAt(pool, rank, y)
    ensures Ranked(ParentGraph(AfterRemoval(pool, rank, s, false)), rank)
    ensures DescendantsExactAt(AfterRemoval(pool, rank, s, false), rank, y) <==>
            forall x :: x in s && x in Desc(pool, rank, y) ==> NearlyBelow(pool, rank, s, x, y)
  {
    ExactWhenAllHit(pool, rank, s, y);
    hide AfterRemoval, DescendantsExactAt, Desc, NearlyBelow, Touched, ClosedDown;
    var was, hits := Desc(pool, rank, y), Hits(pool, rank, s, s, y);
    forall x | x in s
      ensures x in hits <==> NearlyBelow(pool, rank, s, x, y)
    {
      ParentsInside(pool, x);
      NearIsTouched(pool, rank, s, x, y);
    }
    assert (was - s == was - hits) <==> forall x :: x in s && x in was ==> x in hits;
  }

  lemma {:induction false} ThirdIsNotNear(pool: Pool, rank: Rank, s: set<TxId>, y: TxId, a: TxId, b: TxId, c: TxId)
    requires Ranked(ParentGraph(pool), rank) && s <= pool.Keys && a in s && b in s && c in s && y in pool && y !in s
    requires y in pool[a].parents && pool[b].parents == {a} && pool[c].parents == {b}
    ensures c in Desc(pool, rank, y) && !NearlyBelow(pool, rank, s, c, y)
  {
    var g := ParentGraph(pool);
    hide Ranked, RankedAt, Below;
    BelowStep(g, rank, a, y);
    BelowStep(g, rank, b, y);
    BelowStep(g, rank, c, y);
  }

  /** So a chain of three removed below a survivor is one too many: the survivor goes on counting the third. */
  lemma {:induction false} ThirdInChainIsMissed(pool: Pool, rank: Rank, s: set<TxId>,
      y: TxId, a: TxId, b: TxId, c: TxId)
    requires Removable(pool, rank, s) && ClosedDown(pool, s) && y in pool && y !in s
    requires DescendantsExactAt(pool, rank, y)
    requires a in s && b in s && c in s && y in pool[a].parents && pool[b].parents == {a} && pool[c].parents == {b}
    ensures Ranked(ParentGraph(AfterRemoval(pool, rank, s, false)), rank)
    ensures !DescendantsExactAt(AfterRemoval(pool, rank, s, false), rank, y)
  {
    hide AfterRemoval, DescendantsExactAt, ClosedDown, NearlyBelow, Desc, Ranked;
    FamilyRemovalExactIff(pool, rank, s, y);
    ThirdIsNotNear(pool, rank, s, y, a, b, c);
  }
}
