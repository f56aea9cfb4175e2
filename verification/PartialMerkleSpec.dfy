/**
 Partial Merkle trees (BIP 37, "Partial Merkle branch format") as functions: what the builder emits
 and what the extractor reads back, with completeness and soundness of the pair.
 */
module PartialMerkleSpec {
  import opened Bits
  import opened MerkleSpec
  import opened MerkleMalleability

  /** The hash of node pos at the given height, recomputed from the transaction ids. */
  function CalcHash<T>(hash: (T, T) -> T, zero: T, txids: seq<T>, height: nat, pos: nat): T
    requires txids == [] || pos < Width(|txids|, height)
  {
    if height == 0 then
      if |txids| == 0 then zero else txids[pos]
    else if txids == [] then
      var left := CalcHash(hash, zero, txids, height - 1, 2 * pos);
      hash(left, left)
    else
      var left := CalcHash(hash, zero, txids, height - 1, 2 * pos);
      var right := if 2 * pos + 1 < Width(|txids|, height - 1)
                   then CalcHash(hash, zero, txids, height - 1, 2 * pos + 1) else left;
      hash(left, right)
  }

  /** The recomputed hash is the node of the tree; at the top it is the root the calculator returns. */
  lemma {:induction false} CalcHashIsNode<T>(hash: (T, T) -> T, zero: T, txids: seq<T>, height: nat, pos: nat)
    requires pos < Width(|txids|, height)
    ensures txids != [] && IsNode(hash, txids, height, pos, CalcHash(hash, zero, txids, height, pos))
  {
    if height > 0 {
      CalcHashIsNode(hash, zero, txids, height - 1, 2 * pos);
      var left := CalcHash(hash, zero, txids, height - 1, 2 * pos);
      if 2 * pos + 1 < Width(|txids|, height - 1) {
        CalcHashIsNode(hash, zero, txids, height - 1, 2 * pos + 1);
        CombinePair(hash, txids, height - 1, pos, left, CalcHash(hash, zero, txids, height - 1, 2 * pos + 1));
      } else {
        CombineLast(hash, txids, height - 1, pos, left);
      }
    }
  }

  lemma {:induction false} CalcHashIsRoot<T>(hash: (T, T) -> T, zero: T, txids: seq<T>)
    requires txids != []
    ensures Width(|txids|, Height(|txids|)) == 1
    ensures CalcHash(hash, zero, txids, Height(|txids|), 0) == Root(hash, txids)
  {
    HeightIsLeast(|txids|);
    CalcHashIsNode(hash, zero, txids, Height(|txids|), 0);
    RootIsTop(hash, txids);
  }

  /* Building */

  /** Some leaf below node pos at the given height is matched. */
  predicate ParentOfMatch(matches: seq<bool>, height: nat, pos: nat) {
    if height == 0 then pos < |matches| && matches[pos]
    else ParentOfMatch(matches, height - 1, 2 * pos) || ParentOfMatch(matches, height - 1, 2 * pos + 1)
  }

  lemma {:induction false} ParentOfMatchMeaning(matches: seq<bool>, height: nat, pos: nat)
    ensures ParentOfMatch(matches, height, pos) <==> exists p: nat :: p < |matches| && matches[p] && Shr(p, height) == pos
  {
    if height > 0 {
      ParentOfMatchMeaning(matches, height - 1, 2 * pos);
      ParentOfMatchMeaning(matches, height - 1, 2 * pos + 1);
      if ParentOfMatch(matches, height, pos) {
        var c := if ParentOfMatch(matches, height - 1, 2 * pos) then 2 * pos else 2 * pos + 1;
        var p: nat :| p < |matches| && matches[p] && Shr(p, height - 1) == c;
        assert Shr(p, height) == pos;
      }
    }
  }

  datatype Proof<T> = Proof(bits: seq<bool>, hashes: seq<T>)

  /** What the traversal from node pos emits, depth first. */
  function Build<T>(hash: (T, T) -> T, txids: seq<T>, matches: seq<bool>, height: nat, pos: nat): (r: Proof<T>)
    requires pos < Width(|txids|, height)
  {
    var parent := ParentOfMatch(matches, height, pos);
    if height == 0 || !parent then
      Proof([parent], [Level(hash, txids, height)[pos]])
    else
      var left := Build(hash, txids, matches, height - 1, 2 * pos);
      if 2 * pos + 1 < Width(|txids|, height - 1) then
        var right := Build(hash, txids, matches, height - 1, 2 * pos + 1);
        Proof([parent] + left.bits + right.bits, left.hashes + right.hashes)
      else
        Proof([parent] + left.bits, left.hashes)
  }

  /** The matched positions below node pos, in order. */
  function MatchedBelow(n: nat, matches: seq<bool>, height: nat, pos: nat): seq<nat>
    requires pos < Width(n, height)
  {
    if height == 0 then
      if ParentOfMatch(matches, 0, pos) then [pos] else []
    else if !ParentOfMatch(matches, height, pos) then []
    else
      MatchedBelow(n, matches, height - 1, 2 * pos) +
      if 2 * pos + 1 < Width(n, height - 1) then MatchedBelow(n, matches, height - 1, 2 * pos + 1) else []
  }

  /* Extracting */

  datatype Extraction<T> = Extraction(value: T, bitUsed: nat, hashUsed: nat, matches: seq<T>, items: seq<nat>, bad: bool)

  /** What reading a subtree from the bits and hashes gives: its hash, the new cursors, the matches and the bad flag. */
  function Extract<T(==)>(hash: (T, T) -> T, zero: T, txs: nat, p: Proof<T>, height: nat, pos: nat,
                          bitUsed: nat, hashUsed: nat): Extraction<T>
    decreases height
  {
    if bitUsed >= |p.bits| then Extraction(zero, bitUsed, hashUsed, [], [], true)
    else
      var parent := p.bits[bitUsed];
      if height == 0 || !parent then
        if hashUsed >= |p.hashes| then Extraction(zero, bitUsed + 1, hashUsed, [], [], true)
        else
          var h := p.hashes[hashUsed];
          var hit := height == 0 && parent;
          Extraction(h, bitUsed + 1, hashUsed + 1, if hit then [h] else [], if hit then [pos] else [], false)
      else
        var left := Extract(hash, zero, txs, p, height - 1, 2 * pos, bitUsed + 1, hashUsed);
        if 2 * pos + 1 < Width(txs, height - 1) then
          var right := Extract(hash, zero, txs, p, height - 1, 2 * pos + 1, left.bitUsed, left.hashUsed);
          Extraction(hash(left.value, right.value), right.bitUsed, right.hashUsed, left.matches + right.matches,
                     left.items + right.items, left.bad || right.bad || right.value == left.value)
        else
          left.(value := hash(left.value, left.value))
  }

  /** No two siblings anywhere in the tree are equal. */
  ghost predicate DistinctSiblings<T>(hash: (T, T) -> T, txids: seq<T>) {
    forall h: nat, j: nat :: !EqualPair(hash, txids, h, j)
  }

  /** p holds the output of a build at the given cursors. */
  ghost predicate Holds<T>(p: Proof<T>, bitUsed: nat, hashUsed: nat, q: Proof<T>) {
    bitUsed <= |p.bits| && q.bits <= p.bits[bitUsed..] &&
    hashUsed <= |p.hashes| && q.hashes <= p.hashes[hashUsed..]
  }

  lemma {:induction false} SplitPrefix<A>(s: seq<A>, k: nat, a: seq<A>, b: seq<A>)
    requires k <= |s| && a + b <= s[k..]
    ensures k + |a| <= |s| && a <= s[k..] && b <= s[k + |a|..]
  {
    assert s[k..][|a|..] == s[k + |a|..];
    assert (a + b)[|a|..] == b;
  }

  lemma {:induction false} HoldsParts<T>(p: Proof<T>, b: nat, h: nat, flag: bool, l: Proof<T>, r: Proof<T>)
    requires Holds(p, b, h, Proof([flag] + l.bits + r.bits, l.hashes + r.hashes))
    ensures b < |p.bits| && p.bits[b] == flag
    ensures Holds(p, b + 1, h, l) && Holds(p, b + 1 + |l.bits|, h + |l.hashes|, r)
  {
    assert [flag] + l.bits + r.bits == [flag] + (l.bits + r.bits);
    SplitPrefix(p.bits, b, [flag], l.bits + r.bits);
    SplitPrefix(p.bits, b + 1, l.bits, r.bits);
    SplitPrefix(p.hashes, h, l.hashes, r.hashes);
  }

  /** e is the faithful reading of subtree (height, pos), stored as q at cursors b and h. */
  ghost predicate Reads<T>(e: Extraction<T>, hash: (T, T) -> T, txids: seq<T>, matches: seq<bool>, height: nat, pos: nat,
                           b: nat, h: nat, q: Proof<T>)
  {
    pos < Width(|txids|, height) && e.value == Level(hash, txids, height)[pos] && !e.bad &&
    e.bitUsed == b + |q.bits| && e.hashUsed == h + |q.hashes| &&
    e.items == MatchedBelow(|txids|, matches, height, pos) && Genuine(txids, e.matches, e.items)
  }

  /** The listed ids are those of the listed positions. */
  ghost predicate Genuine<T>(txids: seq<T>, ids: seq<T>, items: seq<nat>) {
    |ids| == |items| && forall i :: 0 <= i < |items| ==> items[i] < |txids| && txids[items[i]] == ids[i]
  }

  lemma {:induction false} ReadsPair<T>(el: Extraction<T>, er: Extraction<T>, hash: (T, T) -> T, txids: seq<T>,
      matches: seq<bool>,
                     height: nat, pos: nat, b: nat, h: nat, ql: Proof<T>, qr: Proof<T>)
    requires pos < Width(|txids|, height + 1) && ParentOfMatch(matches, height + 1, pos)
    requires Reads(el, hash, txids, matches, height, 2 * pos, b + 1, h, ql)
    requires Reads(er, hash, txids, matches, height, 2 * pos + 1, el.bitUsed, el.hashUsed, qr)
    ensures Reads(Extraction(hash(el.value, er.value), er.bitUsed, er.hashUsed, el.matches + er.matches,
                             el.items + er.items, false),
                  hash, txids, matches, height + 1, pos, b, h,
                  Proof([true] + ql.bits + qr.bits, ql.hashes + qr.hashes))
  {
    hide Level;
    NodeOfChildren(hash, txids, height + 1, pos);
  }

  lemma {:induction false} ReadsSingle<T>(el: Extraction<T>, hash: (T, T) -> T, txids: seq<T>, matches: seq<bool>,
                       height: nat, pos: nat, b: nat, h: nat, ql: Proof<T>)
    requires 2 * pos + 1 == Width(|txids|, height) && ParentOfMatch(matches, height + 1, pos)
    requires Reads(el, hash, txids, matches, height, 2 * pos, b + 1, h, ql)
    ensures Reads(el.(value := hash(el.value, el.value)), hash, txids, matches, height + 1, pos, b, h,
                  Proof([true] + ql.bits, ql.hashes))
  {
    hide Level;
    NodeOfChildren(hash, txids, height + 1, pos);
    assert el.items + [] == el.items;
  }

  lemma {:induction false} ReadsStored<T>(hash: (T, T) -> T, txids: seq<T>, matches: seq<bool>, height: nat, pos: nat,
      b: nat, h: nat)
    requires |matches| == |txids| && pos < Width(|txids|, height)
    requires height == 0 || !ParentOfMatch(matches, height, pos)
    ensures var x, hit := Level(hash, txids, height)[pos], height == 0 && ParentOfMatch(matches, height, pos);
            Reads(Extraction(x, b + 1, h + 1, if hit then [x] else [], if hit then [pos] else [], false),
                  hash, txids, matches, height, pos, b, h, Proof([ParentOfMatch(matches, height, pos)], [x]))
  {
  }

  /** Opening a two-child node: its build, the bits and hashes it occupies, and how it is read. */
  lemma {:induction false} OpenPair<T>(hash: (T, T) -> T, zero: T, txids: seq<T>, matches: seq<bool>, p: Proof<T>,
                    height: nat, pos: nat, b: nat, h: nat)
    requires pos < Width(|txids|, height + 1) && 2 * pos + 1 < Width(|txids|, height)
    requires ParentOfMatch(matches, height + 1, pos) && Holds(p, b, h, Build(hash, txids, matches, height + 1, pos))
    ensures var l, r := Build(hash, txids, matches, height, 2 * pos), Build(hash, txids, matches, height, 2 * pos + 1);
            Build(hash, txids, matches, height + 1, pos) == Proof([true] + l.bits + r.bits, l.hashes + r.hashes) &&
            Holds(p, b + 1, h, l) && Holds(p, b + 1 + |l.bits|, h + |l.hashes|, r)
    ensures var el := Extract(hash, zero, |txids|, p, height, 2 * pos, b + 1, h);
            var er := Extract(hash, zero, |txids|, p, height, 2 * pos + 1, el.bitUsed, el.hashUsed);
            Extract(hash, zero, |txids|, p, height + 1, pos, b, h)
            == Extraction(hash(el.value, er.value), er.bitUsed, er.hashUsed, el.matches + er.matches,
                          el.items + er.items, el.bad || er.bad || er.value == el.value)
  {
    hide Level, ParentOfMatch, Holds, Width;
    HoldsParts(p, b, h, true, Build(hash, txids, matches, height, 2 * pos), Build(hash, txids, matches, height, 2 * pos + 1));
  }

  lemma {:induction false} OpenSingle<T>(hash: (T, T) -> T, zero: T, txids: seq<T>, matches: seq<bool>, p: Proof<T>,
                      height: nat, pos: nat, b: nat, h: nat)
    requires pos < Width(|txids|, height + 1) && 2 * pos + 1 == Width(|txids|, height)
    requires ParentOfMatch(matches, height + 1, pos) && Holds(p, b, h, Build(hash, txids, matches, height + 1, pos))
    ensures var l := Build(hash, txids, matches, height, 2 * pos);
            Build(hash, txids, matches, height + 1, pos) == Proof([true] + l.bits, l.hashes) && Holds(p, b + 1, h, l)
    ensures var el := Extract(hash, zero, |txids|, p, height, 2 * pos, b + 1, h);
            Extract(hash, zero, |txids|, p, height + 1, pos, b, h) == el.(value := hash(el.value, el.value))
  {
    hide Level, ParentOfMatch, Holds, Width;
    var l := Build(hash, txids, matches, height, 2 * pos);
    assert l.hashes + [] == l.hashes && [true] + l.bits + [] == [true] + l.bits;
    HoldsParts(p, b, h, true, l, Proof([], []));
  }

  lemma {:induction false} ReadStored<T>(hash: (T, T) -> T, zero: T, txids: seq<T>, matches: seq<bool>, p: Proof<T>,
                      height: nat, pos: nat, b: nat, h: nat)
    requires |matches| == |txids| && pos < Width(|txids|, height)
    requires height == 0 || !ParentOfMatch(matches, height, pos)
    requires Holds(p, b, h, Build(hash, txids, matches, height, pos))
    ensures Reads(Extract(hash, zero, |txids|, p, height, pos, b, h), hash, txids, matches, height, pos, b, h,
                  Build(hash, txids, matches, height, pos))
  {
    hide Level, Holds, Width, Reads;
    HoldsStored(p, b, h, ParentOfMatch(matches, height, pos), Level(hash, txids, height)[pos]);
    ReadsStored(hash, txids, matches, height, pos, b, h);
  }

  lemma {:induction false} WidthAbove(n: nat, height: nat, pos: nat)
    requires pos < Width(n, height + 1)
    ensures 2 * pos < Width(n, height)
  {
  }

  /** Reading back a build gives the node's hash, exactly the matched ids and positions, and no complaint. */
  lemma {:induction false} ExtractOfBuild<T>(hash: (T, T) -> T, zero: T, txids: seq<T>, matches: seq<bool>,
                                             p: Proof<T>, height: nat, pos: nat, b: nat, h: nat)
    requires DistinctSiblings(hash, txids)
    requires |matches| == |txids| && pos < Width(|txids|, height)
    requires Holds(p, b, h, Build(hash, txids, matches, height, pos))
    ensures Reads(Extract(hash, zero, |txids|, p, height, pos, b, h), hash, txids, matches, height, pos, b, h,
                  Build(hash, txids, matches, height, pos))
    decreases height
  {
    hide *;
    if height == 0 || !ParentOfMatch(matches, height, pos) {
      ReadStored(hash, zero, txids, matches, p, height, pos, b, h);
    } else {
      var k := height - 1;
      WidthAbove(|txids|, k, pos);
      var l := Build(hash, txids, matches, k, 2 * pos);
      var el := Extract(hash, zero, |txids|, p, k, 2 * pos, b + 1, h);
      if 2 * pos + 1 < Width(|txids|, k) {
        OpenPair(hash, zero, txids, matches, p, k, pos, b, h);
        ExtractOfBuild(hash, zero, txids, matches, p, k, 2 * pos, b + 1, h);
        ReadsMeaning(el, hash, txids, matches, k, 2 * pos, b + 1, h, l);
        var r := Build(hash, txids, matches, k, 2 * pos + 1);
        var er := Extract(hash, zero, |txids|, p, k, 2 * pos + 1, el.bitUsed, el.hashUsed);
        ExtractOfBuild(hash, zero, txids, matches, p, k, 2 * pos + 1, el.bitUsed, el.hashUsed);
        ReadsMeaning(er, hash, txids, matches, k, 2 * pos + 1, el.bitUsed, el.hashUsed, r);
        ReadsPair(el, er, hash, txids, matches, k, pos, b, h, l, r);
        SiblingsDiffer(hash, txids, k, pos);
      } else {
        OpenSingle(hash, zero, txids, matches, p, k, pos, b, h);
        ExtractOfBuild(hash, zero, txids, matches, p, k, 2 * pos, b + 1, h);
        ReadsSingle(el, hash, txids, matches, k, pos, b, h, l);
      }
    }
  }

  lemma {:induction false} HoldsStored<T>(p: Proof<T>, b: nat, h: nat, flag: bool, x: T)
    requires Holds(p, b, h, Proof([flag], [x]))
    ensures b < |p.bits| && p.bits[b] == flag && h < |p.hashes| && p.hashes[h] == x
  {
    SplitPrefix(p.bits, b, [flag], []);
    SplitPrefix(p.hashes, h, [x], []);
  }

  lemma {:induction false} ReadsMeaning<T>(e: Extraction<T>, hash: (T, T) -> T, txids: seq<T>, matches: seq<bool>,
      height: nat, pos: nat,
                        b: nat, h: nat, q: Proof<T>)
    requires Reads(e, hash, txids, matches, height, pos, b, h, q)
    ensures pos < Width(|txids|, height) && e.value == Level(hash, txids, height)[pos] && !e.bad
    ensures e.bitUsed == b + |q.bits| && e.hashUsed == h + |q.hashes|
  {
  }

  lemma {:induction false} SiblingsDiffer<T>(hash: (T, T) -> T, txids: seq<T>, height: nat, pos: nat)
    requires 2 * pos + 1 < Width(|txids|, height) && DistinctSiblings(hash, txids)
    ensures Level(hash, txids, height)[2 * pos] != Level(hash, txids, height)[2 * pos + 1]
  {
    assert !EqualPair(hash, txids, height, pos);
  }

  /* Distinct transactions give distinct siblings */

  lemma {:induction false} NodesAreDistinct<T>(hash: (T, T) -> T, txids: seq<T>, h: nat, x: nat, y: nat)
    requires !Collision(hash, txids, txids)
    requires forall i, j :: 0 <= i < j < |txids| ==> txids[i] != txids[j]
    requires x < Width(|txids|, h) && y < Width(|txids|, h)
    requires Level(hash, txids, h)[x] == Level(hash, txids, h)[y]
    ensures x == y
  {
    assert Level(hash, txids, 0) == txids;
    hide Collision, Level;
    if h > 0 {
      NodeOfChildren(hash, txids, h, x);
      NodeOfChildren(hash, txids, h, y);
      SamePair(hash, txids, txids, h - 1, x, y);
      NodesAreDistinct(hash, txids, h - 1, 2 * x, 2 * y);
    }
  }

  /** With distinct ids the extractor's equal-siblings alarm never fires, or the tree exhibits a collision. */
  lemma {:induction false} DistinctIdsGiveDistinctSiblings<T>(hash: (T, T) -> T, txids: seq<T>)
    requires forall i, j :: 0 <= i < j < |txids| ==> txids[i] != txids[j]
    ensures DistinctSiblings(hash, txids) || Collision(hash, txids, txids)
  {
    hide Collision;
    if !Collision(hash, txids, txids) {
      forall h: nat, j: nat | EqualPair(hash, txids, h, j)
        ensures false
      {
        NodesAreDistinct(hash, txids, h, 2 * j, 2 * j + 1);
      }
    }
  }

  /* Soundness */

  /** The reading of a subtree, opened one level, whoever wrote the bits. */
  lemma {:induction false} OpenReading<T>(hash: (T, T) -> T, zero: T, n: nat, p: Proof<T>, height: nat, pos: nat,
      b: nat, h: nat)
    requires b < |p.bits| && p.bits[b]
    ensures var el := Extract(hash, zero, n, p, height, 2 * pos, b + 1, h);
            var er := Extract(hash, zero, n, p, height, 2 * pos + 1, el.bitUsed, el.hashUsed);
            Extract(hash, zero, n, p, height + 1, pos, b, h) ==
            if 2 * pos + 1 < Width(n, height) then
              Extraction(hash(el.value, er.value), er.bitUsed, er.hashUsed, el.matches + er.matches,
                         el.items + er.items, el.bad || er.bad || er.value == el.value)
            else
              el.(value := hash(el.value, el.value))
  {
    hide Width;
  }

  lemma {:induction false} StoredReading<T>(hash: (T, T) -> T, zero: T, n: nat, p: Proof<T>, height: nat, pos: nat,
      b: nat, h: nat)
    requires b >= |p.bits| || height == 0 || !p.bits[b]
    ensures Extract(hash, zero, n, p, height, pos, b, h) ==
            if b >= |p.bits| then Extraction(zero, b, h, [], [], true)
            else if h >= |p.hashes| then Extraction(zero, b + 1, h, [], [], true)
            else if p.bits[b] then Extraction(p.hashes[h], b + 1, h + 1, [p.hashes[h]], [pos], false)
            else Extraction(p.hashes[h], b + 1, h + 1, [], [], false)
  {
    hide Width;
  }

  lemma {:induction false} GenuineAppend<T>(txids: seq<T>, a: seq<T>, pa: seq<nat>, b: seq<T>, pb: seq<nat>)
    requires Genuine(txids, a, pa) && Genuine(txids, b, pb)
    ensures Genuine(txids, a + b, pa + pb)
  {
  }

  /**
   Somewhere below node pos the reading hashes a pair that is not the pair of the true tree, and gets the true node:
   a collision of the pair hash.
   */
  ghost predicate ReadingCollides<T>(hash: (T, T) -> T, zero: T, txids: seq<T>, p: Proof<T>,
                                     height: nat, pos: nat, b: nat, h: nat)
    requires pos < Width(|txids|, height)
    decreases height
  {
    b < |p.bits| && p.bits[b] && height > 0 &&
    var k, n := height - 1, |txids|;
    var el := Extract(hash, zero, n, p, k, 2 * pos, b + 1, h);
    if 2 * pos + 1 < Width(n, k) then
      var er := Extract(hash, zero, n, p, k, 2 * pos + 1, el.bitUsed, el.hashUsed);
      Collides(hash, (el.value, er.value), PairAt(hash, txids, k, pos)) ||
      ReadingCollides(hash, zero, txids, p, k, 2 * pos, b + 1, h) ||
      ReadingCollides(hash, zero, txids, p, k, 2 * pos + 1, el.bitUsed, el.hashUsed)
    else
      Collides(hash, (el.value, el.value), PairAt(hash, txids, k, pos)) ||
      ReadingCollides(hash, zero, txids, p, k, 2 * pos, b + 1, h)
  }

  ghost predicate Collides<T>(hash: (T, T) -> T, u: (T, T), v: (T, T)) {
    u != v && hash(u.0, u.1) == hash(v.0, v.1)
  }

  /**
   Whoever chose the bits and hashes: if a subtree reads as the true node without a collision, what it lists is true of
   the block.
   */
  lemma {:induction false} ExtractSound<T>(hash: (T, T) -> T, zero: T, txids: seq<T>, p: Proof<T>,
                                                 height: nat, pos: nat, b: nat, h: nat)
    requires pos < Width(|txids|, height) && !ReadingCollides(hash, zero, txids, p, height, pos, b, h)
    requires var e := Extract(hash, zero, |txids|, p, height, pos, b, h);
             !e.bad && e.value == Level(hash, txids, height)[pos]
    ensures var e := Extract(hash, zero, |txids|, p, height, pos, b, h); Genuine(txids, e.matches, e.items)
    decreases height
  {
    hide Level, Genuine;
    var n := |txids|;
    if b >= |p.bits| || height == 0 || !p.bits[b] {
      SoundStored(hash, zero, txids, p, height, pos, b, h);
    } else {
      hide Extract, Width;
      var k := height - 1;
      OpenReading(hash, zero, n, p, k, pos, b, h);
      NodeOfChildren(hash, txids, height, pos);
      var below := Level(hash, txids, k);
      var el := Extract(hash, zero, n, p, k, 2 * pos, b + 1, h);
      if 2 * pos + 1 < Width(n, k) {
        var er := Extract(hash, zero, n, p, k, 2 * pos + 1, el.bitUsed, el.hashUsed);
        assert !Collides(hash, (el.value, er.value), PairAt(hash, txids, k, pos));
        ExtractSound(hash, zero, txids, p, k, 2 * pos, b + 1, h);
        ExtractSound(hash, zero, txids, p, k, 2 * pos + 1, el.bitUsed, el.hashUsed);
        GenuineAppend(txids, el.matches, el.items, er.matches, er.items);
      } else {
        assert !Collides(hash, (el.value, el.value), PairAt(hash, txids, k, pos));
        ExtractSound(hash, zero, txids, p, k, 2 * pos, b + 1, h);
      }
    }
  }

  lemma {:induction false} SoundStored<T>(hash: (T, T) -> T, zero: T, txids: seq<T>, p: Proof<T>, height: nat,
      pos: nat, b: nat, h: nat)
    requires pos < Width(|txids|, height)
    requires b >= |p.bits| || height == 0 || !p.bits[b]
    requires var e := Extract(hash, zero, |txids|, p, height, pos, b, h);
             !e.bad && e.value == Level(hash, txids, height)[pos]
    ensures var e := Extract(hash, zero, |txids|, p, height, pos, b, h); Genuine(txids, e.matches, e.items)
  {
  }

  /* Which positions a build lists */

  lemma {:induction false} ShrOrder(p: nat, q: nat, h: nat)
    requires Shr(p, h) < Shr(q, h)
    ensures p < q
  {
    if q <= p {
      ShrMonotone(q, p, h);
    }
  }

  /** ps are exactly the matched leaves below node pos, in increasing order. */
  ghost predicate Lists(ps: seq<nat>, matches: seq<bool>, height: nat, pos: nat) {
    (forall q: nat :: q in ps <==> q < |matches| && matches[q] && Shr(q, height) == pos) &&
    (forall i, j :: 0 <= i < j < |ps| ==> ps[i] < ps[j])
  }

  lemma {:induction false} ListsPair(l: seq<nat>, r: seq<nat>, matches: seq<bool>, k: nat, pos: nat)
    requires Lists(l, matches, k, 2 * pos) && Lists(r, matches, k, 2 * pos + 1)
    ensures Lists(l + r, matches, k + 1, pos)
  {
    forall i, j | 0 <= i < |l| && 0 <= j < |r|
      ensures l[i] < r[j]
    {
      assert l[i] in l && r[j] in r;
      ShrOrder(l[i], r[j], k);
    }
    forall q: nat
      ensures q in l + r <==> q < |matches| && matches[q] && Shr(q, k + 1) == pos
    {
      assert Shr(q, k + 1) == pos <==> Shr(q, k) == 2 * pos || Shr(q, k) == 2 * pos + 1;
    }
  }

  lemma {:induction false} MatchedExactly(n: nat, matches: seq<bool>, height: nat, pos: nat)
    requires |matches| == n && pos < Width(n, height)
    ensures Lists(MatchedBelow(n, matches, height, pos), matches, height, pos)
  {
    hide Lists, ParentOfMatch, Shr;
    if height == 0 || !ParentOfMatch(matches, height, pos) {
      ListsStored(matches, height, pos);
    } else {
      var k := height - 1;
      MatchedExactly(n, matches, k, 2 * pos);
      if 2 * pos + 1 < Width(n, k) {
        MatchedExactly(n, matches, k, 2 * pos + 1);
        ListsPair(MatchedBelow(n, matches, k, 2 * pos), MatchedBelow(n, matches, k, 2 * pos + 1), matches, k, pos);
      } else {
        NothingBeyond(matches, k, 2 * pos + 1);
        ListsPair(MatchedBelow(n, matches, k, 2 * pos), [], matches, k, pos);
      }
    }
  }

  lemma {:induction false} ListsStored(matches: seq<bool>, height: nat, pos: nat)
    requires height == 0 || !ParentOfMatch(matches, height, pos)
    ensures Lists(if ParentOfMatch(matches, height, pos) then [pos] else [], matches, height, pos)
  {
    ParentOfMatchMeaning(matches, height, pos);
  }

  lemma {:induction false} NothingBeyond(matches: seq<bool>, k: nat, pos: nat)
    requires Width(|matches|, k) <= pos
    ensures Lists([], matches, k, pos)
  {
    forall q: nat | q < |matches|
      ensures Shr(q, k) != pos
    {
      PositionInWidth(|matches|, q, k);
    }
  }

  /* Size limits the extractor enforces */

  /** Leaves before node pos of the given height. */
  function LeavesBefore(n: nat, height: nat, pos: nat): nat {
    if Shl(pos, height) < n then Shl(pos, height) else n
  }

  lemma {:induction false} NodeHasLeaf(n: nat, height: nat, pos: nat)
    requires pos < Width(n, height)
    ensures Shl(pos, height) < n
  {
    if height > 0 {
      NodeHasLeaf(n, height - 1, 2 * pos);
      ShlDouble(pos, height - 1);
    }
  }

  lemma {:induction false} LeavesBeforeChild(n: nat, height: nat, pos: nat)
    ensures LeavesBefore(n, height + 1, pos) == LeavesBefore(n, height, 2 * pos)
  {
    ShlDouble(pos, height);
  }

  lemma {:induction false} LeavesBeforeGrows(n: nat, height: nat, pos: nat)
    ensures LeavesBefore(n, height, pos) <= LeavesBefore(n, height, pos + 1)
    ensures pos < Width(n, height) ==> LeavesBefore(n, height, pos) < LeavesBefore(n, height, pos + 1)
  {
    ShlGrows(pos, height);
    if pos < Width(n, height) {
      NodeHasLeaf(n, height, pos);
    }
  }

  /** A build never stores more hashes than the leaves it covers, nor more hashes than bits. */
  lemma {:induction false} BuildIsSmall<T>(hash: (T, T) -> T, txids: seq<T>, matches: seq<bool>, height: nat, pos: nat)
    requires pos < Width(|txids|, height)
    ensures var q, n := Build(hash, txids, matches, height, pos), |txids|;
            |q.hashes| <= LeavesBefore(n, height, pos + 1) - LeavesBefore(n, height, pos) && |q.hashes| <= |q.bits|
  {
    hide Level, ParentOfMatch, LeavesBefore;
    var n := |txids|;
    LeavesBeforeGrows(n, height, pos);
    if height > 0 && ParentOfMatch(matches, height, pos) {
      var k := height - 1;
      LeavesBeforeChild(n, k, pos);
      LeavesBeforeChild(n, k, pos + 1);
      BuildIsSmall(hash, txids, matches, k, 2 * pos);
      LeavesBeforeGrows(n, k, 2 * pos + 1);
      if 2 * pos + 1 < Width(n, k) {
        BuildIsSmall(hash, txids, matches, k, 2 * pos + 1);
      }
    }
  }

  /* The whole extraction */

  datatype Verdict<T> = Verdict(root: T, matches: seq<T>, items: seq<nat>, bad: bool)

  /** ExtractMatches: the sanity checks around the traversal; every failure answers the zero hash. */
  function ExtractAll<T(==)>(hash: (T, T) -> T, zero: T, txs: nat, p: Proof<T>, wasBad: bool): Verdict<T> {
    if txs == 0 || |p.hashes| > txs || |p.bits| < |p.hashes| then Verdict(zero, [], [], wasBad)
    else
      var e := Extract(hash, zero, txs, p, Height(txs), 0, 0, 0);
      var bad := wasBad || e.bad;
      var ok := !bad && (e.bitUsed + 7) / 8 == (|p.bits| + 7) / 8 && e.hashUsed == |p.hashes|;
      Verdict(if ok then e.value else zero, e.matches, e.items, bad)
  }

  /** The proof a block offers for the matched transactions. */
  function ProofFor<T>(hash: (T, T) -> T, txids: seq<T>, matches: seq<bool>): Proof<T>
    requires txids != []
  {
    HeightIsLeast(|txids|);
    Build(hash, txids, matches, Height(|txids|), 0)
  }

  /** v reports the root and exactly the matched transactions, in order, with their ids. */
  ghost predicate Reports<T>(v: Verdict<T>, hash: (T, T) -> T, txids: seq<T>, matches: seq<bool>)
    requires txids != [] && |matches| == |txids|
  {
    v.root == Root(hash, txids) && !v.bad && Genuine(txids, v.matches, v.items) &&
    (forall q: nat :: q in v.items <==> q < |txids| && matches[q]) &&
    (forall i, j :: 0 <= i < j < |v.items| ==> v.items[i] < v.items[j])
  }

  /** Completeness, also when the bits were padded to whole bytes. */
  lemma {:induction false} ProofIsAccepted<T>(hash: (T, T) -> T, zero: T, txids: seq<T>, matches: seq<bool>,
      padding: seq<bool>)
    requires DistinctSiblings(hash, txids)
    requires txids != [] && |matches| == |txids|
    requires var p := ProofFor(hash, txids, matches); (|p.bits| + |padding| + 7) / 8 == (|p.bits| + 7) / 8
    ensures var p := ProofFor(hash, txids, matches);
            Reports(ExtractAll(hash, zero, |txids|, Proof(p.bits + padding, p.hashes), false), hash, txids, matches)
  {
    hide Level, Build, Extract, MatchedBelow, Width, LeavesBefore, DistinctSiblings;
    var n, top, p := |txids|, Height(|txids|), ProofFor(hash, txids, matches);
    HeightIsLeast(n);
    RootIsTop(hash, txids);
    BuildIsSmall(hash, txids, matches, top, 0);
    TopLeaves(n, top);
    var q := Proof(p.bits + padding, p.hashes);
    ExtractOfBuild(hash, zero, txids, matches, q, top, 0, 0, 0);
    MatchedExactly(n, matches, top, 0);
    forall r: nat | r < n
      ensures Shr(r, top) == 0
    {
      PositionInWidth(n, r, top);
    }
  }

  lemma {:induction false} TopLeaves(n: nat, height: nat)
    ensures LeavesBefore(n, height, 1) - LeavesBefore(n, height, 0) <= n
  {
  }

  /**
   Soundness: with the true transaction count, a proof that extracts to the root lists only true pairs, or reading it
   exhibits a collision of the pair hash.
   */
  lemma {:induction false} AcceptedProofIsGenuine<T>(hash: (T, T) -> T, zero: T, txids: seq<T>, p: Proof<T>,
      wasBad: bool)
    requires txids != [] && Root(hash, txids) != zero
    requires ExtractAll(hash, zero, |txids|, p, wasBad).root == Root(hash, txids)
    ensures Width(|txids|, Height(|txids|)) == 1
    ensures var v := ExtractAll(hash, zero, |txids|, p, wasBad);
            Genuine(txids, v.matches, v.items) || ReadingCollides(hash, zero, txids, p, Height(|txids|), 0, 0, 0)
  {
    hide Level, Extract, Width, Genuine, ReadingCollides;
    HeightIsLeast(|txids|);
    RootIsTop(hash, txids);
    if !ReadingCollides(hash, zero, txids, p, Height(|txids|), 0, 0, 0) {
      ExtractSound(hash, zero, txids, p, Height(|txids|), 0, 0, 0);
    }
  }

  /* Nothing is left over */

  /** How far the bits and hashes are read depends on the bits alone. */
  lemma {:induction false} SameCursors<T>(hash: (T, T) -> T, zero: T, n: nat, p: Proof<T>, q: Proof<T>, height: nat,
      pos: nat, b: nat, h: nat)
    requires p.bits == q.bits
    requires !Extract(hash, zero, n, p, height, pos, b, h).bad && !Extract(hash, zero, n, q, height, pos, b, h).bad
    ensures var e, f := Extract(hash, zero, n, p, height, pos, b, h), Extract(hash, zero, n, q, height, pos, b, h);
            e.bitUsed == f.bitUsed && e.hashUsed == f.hashUsed
    decreases height
  {
    hide Width, Extract;
    if b >= |p.bits| || height == 0 || !p.bits[b] {
      StoredReading(hash, zero, n, p, height, pos, b, h);
      StoredReading(hash, zero, n, q, height, pos, b, h);
    } else {
      var k := height - 1;
      OpenReading(hash, zero, n, p, k, pos, b, h);
      OpenReading(hash, zero, n, q, k, pos, b, h);
      SameCursors(hash, zero, n, p, q, k, 2 * pos, b + 1, h);
      if 2 * pos + 1 < Width(n, k) {
        var el := Extract(hash, zero, n, p, k, 2 * pos, b + 1, h);
        SameCursors(hash, zero, n, p, q, k, 2 * pos + 1, el.bitUsed, el.hashUsed);
      }
    }
  }

  /** Bits beyond those read change nothing. */
  lemma {:induction false} MoreBitsReadTheSame<T>(hash: (T, T) -> T, zero: T, n: nat, p: Proof<T>, more: seq<bool>,
      height: nat, pos: nat, b: nat, h: nat)
    requires !Extract(hash, zero, n, p, height, pos, b, h).bad
    ensures Extract(hash, zero, n, Proof(p.bits + more, p.hashes), height, pos, b, h) ==
            Extract(hash, zero, n, p, height, pos, b, h)
    decreases height
  {
    hide Width, Extract;
    var q := Proof(p.bits + more, p.hashes);
    if b >= |p.bits| || height == 0 || !p.bits[b] {
      StoredReading(hash, zero, n, p, height, pos, b, h);
      StoredReading(hash, zero, n, q, height, pos, b, h);
    } else {
      var k := height - 1;
      OpenReading(hash, zero, n, p, k, pos, b, h);
      OpenReading(hash, zero, n, q, k, pos, b, h);
      MoreBitsReadTheSame(hash, zero, n, p, more, k, 2 * pos, b + 1, h);
      if 2 * pos + 1 < Width(n, k) {
        var el := Extract(hash, zero, n, p, k, 2 * pos, b + 1, h);
        MoreBitsReadTheSame(hash, zero, n, p, more, k, 2 * pos + 1, el.bitUsed, el.hashUsed);
      }
    }
  }

  /**
   The flag bits fix the number of hashes: of an accepted proof, neither more nor fewer hashes, nor any others in another
   number, are accepted with the same bits.
   */
  lemma {:induction false} HashesAreCounted<T>(hash: (T, T) -> T, zero: T, n: nat, p: Proof<T>, hashes: seq<T>, wasBad: bool)
    requires ExtractAll(hash, zero, n, p, false).root != zero && |hashes| != |p.hashes|
    ensures ExtractAll(hash, zero, n, Proof(p.bits, hashes), wasBad).root == zero
  {
    hide Extract, Width, Height;
    var q := Proof(p.bits, hashes);
    if ExtractAll(hash, zero, n, q, wasBad).root != zero {
      SameCursors(hash, zero, n, p, q, Height(n), 0, 0, 0);
    }
  }

  /** Flag bits appended to an accepted proof pass as padding if and only if they need no further byte. */
  lemma {:induction false} BitsAreCounted<T>(hash: (T, T) -> T, zero: T, n: nat, p: Proof<T>, more: seq<bool>)
    requires ExtractAll(hash, zero, n, p, false).root != zero
    ensures var v := ExtractAll(hash, zero, n, Proof(p.bits + more, p.hashes), false);
            if (|p.bits| + |more| + 7) / 8 == (|p.bits| + 7) / 8 then v == ExtractAll(hash, zero, n, p, false)
            else v.root == zero
  {
    hide Extract, Width, Height;
    MoreBitsReadTheSame(hash, zero, n, p, more, Height(n), 0, 0, 0);
  }

  /** Whole bytes cannot be taken off either. */
  lemma {:induction false} FewerBytesFail<T>(hash: (T, T) -> T, zero: T, n: nat, p: Proof<T>, k: nat)
    requires ExtractAll(hash, zero, n, p, false).root != zero && k <= |p.bits| && (k + 7) / 8 < (|p.bits| + 7) / 8
    ensures ExtractAll(hash, zero, n, Proof(p.bits[..k], p.hashes), false).root == zero
  {
    hide ExtractAll;
    var q := Proof(p.bits[..k], p.hashes);
    assert Proof(q.bits + p.bits[k..], q.hashes) == p;
    if ExtractAll(hash, zero, n, q, false).root != zero {
      BitsAreCounted(hash, zero, n, q, p.bits[k..]);
    }
  }

  /** Somewhere below node pos the reading combines two children that are equal. */
  ghost predicate ReadsTwins<T>(hash: (T, T) -> T, zero: T, n: nat, p: Proof<T>, height: nat, pos: nat, b: nat, h: nat)
    decreases height
  {
    b < |p.bits| && p.bits[b] && height > 0 &&
    var k := height - 1;
    var el := Extract(hash, zero, n, p, k, 2 * pos, b + 1, h);
    ReadsTwins(hash, zero, n, p, k, 2 * pos, b + 1, h) ||
    (2 * pos + 1 < Width(n, k) &&
     (ReadsTwins(hash, zero, n, p, k, 2 * pos + 1, el.bitUsed, el.hashUsed) ||
      Extract(hash, zero, n, p, k, 2 * pos + 1, el.bitUsed, el.hashUsed).value == el.value))
  }

  lemma {:induction false} TwinsAreBad<T>(hash: (T, T) -> T, zero: T, n: nat, p: Proof<T>, height: nat, pos: nat,
      b: nat, h: nat)
    requires ReadsTwins(hash, zero, n, p, height, pos, b, h)
    ensures Extract(hash, zero, n, p, height, pos, b, h).bad
    decreases height
  {
    hide Width, Extract;
    var k := height - 1;
    OpenReading(hash, zero, n, p, k, pos, b, h);
    var el := Extract(hash, zero, n, p, k, 2 * pos, b + 1, h);
    if ReadsTwins(hash, zero, n, p, k, 2 * pos, b + 1, h) {
      TwinsAreBad(hash, zero, n, p, k, 2 * pos, b + 1, h);
    } else if ReadsTwins(hash, zero, n, p, k, 2 * pos + 1, el.bitUsed, el.hashUsed) {
      TwinsAreBad(hash, zero, n, p, k, 2 * pos + 1, el.bitUsed, el.hashUsed);
    }
  }

  /** No proof over no transactions, none of a tree marked bad before, and none with equal siblings is accepted. */
  lemma {:induction false} RefusedOutright<T>(hash: (T, T) -> T, zero: T, n: nat, p: Proof<T>, wasBad: bool)
    requires n == 0 || wasBad || ReadsTwins(hash, zero, n, p, Height(n), 0, 0, 0)
    ensures ExtractAll(hash, zero, n, p, wasBad).root == zero
  {
    hide Extract, Width, Height;
    if ReadsTwins(hash, zero, n, p, Height(n), 0, 0, 0) {
      TwinsAreBad(hash, zero, n, p, Height(n), 0, 0, 0);
    }
  }
}
