/** Median time past, and what switches on with it: model/blockindex, the header time rule and GetBlockScriptFlags. */
module MedianTime {
  import opened Wrappers
  import opened Basics
  import opened BlockTree
  import opened ScriptFlags

  const MEDIAN_TIME_SPAN: nat := 11

  /* Sorting and counting */

  function Insert(x: nat, s: seq<nat>): (r: seq<nat>)
    ensures |r| == |s| + 1
  {
    if s == [] || x <= s[0] then [x] + s else [s[0]] + Insert(x, s[1..])
  }

  function Sorted(s: seq<nat>): (r: seq<nat>)
    ensures |r| == |s|
  {
    if s == [] then [] else Insert(s[0], Sorted(s[1..]))
  }

  ghost predicate Ascending(s: seq<nat>) {
    forall i, j :: 0 <= i <= j < |s| ==> s[i] <= s[j]
  }

  /** How many elements are x or more. */
  function AtLeast(s: seq<nat>, x: nat): nat {
    if s == [] then 0 else AtLeast(s[1..], x) + if s[0] >= x then 1 else 0
  }

  lemma {:induction false} InsertKeeps(x: nat, s: seq<nat>)
    ensures multiset(Insert(x, s)) == multiset(s) + multiset{x}
  {
    if s != [] {
      assert s == [s[0]] + s[1..];
      if x > s[0] {
        InsertKeeps(x, s[1..]);
      }
    }
  }

  lemma {:induction false} InsertSorts(x: nat, s: seq<nat>)
    requires Ascending(s)
    ensures Ascending(Insert(x, s)) && (s != [] ==> Insert(x, s)[0] == if x <= s[0] then x else s[0])
  {
    if !(s == [] || x <= s[0]) {
      InsertSorts(x, s[1..]);
    }
  }

  /** Sorted is a sort. */
  lemma {:induction false} SortedSorts(s: seq<nat>)
    ensures Ascending(Sorted(s)) && multiset(Sorted(s)) == multiset(s)
  {
    if s != [] {
      SortedSorts(s[1..]);
      InsertSorts(s[0], Sorted(s[1..]));
      InsertKeeps(s[0], Sorted(s[1..]));
      assert s == [s[0]] + s[1..];
    }
  }

  lemma {:induction false} InsertCounts(x: nat, s: seq<nat>, m: nat)
    ensures AtLeast(Insert(x, s), m) == AtLeast(s, m) + if x >= m then 1 else 0
  {
    if s == [] || x <= s[0] {
      assert ([x] + s)[1..] == s;
    } else {
      InsertCounts(x, s[1..], m);
      assert ([s[0]] + Insert(x, s[1..]))[1..] == Insert(x, s[1..]);
    }
  }

  lemma {:induction false} SortedCounts(s: seq<nat>, m: nat)
    ensures AtLeast(Sorted(s), m) == AtLeast(s, m)
  {
    if s != [] {
      SortedCounts(s[1..], m);
      InsertCounts(s[0], Sorted(s[1..]), m);
    }
  }

  lemma {:induction false} AllAtLeast(s: seq<nat>, m: nat)
    requires Ascending(s)
    ensures AtLeast(s, m) <= |s| && (s != [] && s[0] >= m ==> AtLeast(s, m) == |s|)
  {
    if s != [] {
      AllAtLeast(s[1..], m);
    }
  }

  /** In ascending order, the element at k reaches m exactly when |s| - k elements do. */
  lemma {:induction false} RankByCount(s: seq<nat>, k: nat, m: nat)
    requires Ascending(s) && k < |s|
    ensures s[k] >= m <==> AtLeast(s, m) >= |s| - k
  {
    AllAtLeast(s, m);
    if k > 0 {
      RankByCount(s[1..], k - 1, m);
      assert s[1..][k - 1] == s[k];
    } else if s[0] < m {
      AllAtLeast(s[1..], m);
    }
  }

  function Median(s: seq<nat>): nat
    requires s != []
  {
    Sorted(s)[|s| / 2]
  }

  /** The median by counting alone. */
  lemma {:induction false} MedianByCount(s: seq<nat>, m: nat)
    requires s != []
    ensures Median(s) >= m <==> AtLeast(s, m) >= |s| - |s| / 2
  {
    SortedSorts(s);
    SortedCounts(s, m);
    RankByCount(Sorted(s), |s| / 2, m);
  }

  /* Median time past */

  /** The times of the block and of its ancestors, at most n of them. */
  ghost function Window(t: Tree, b: Hash, n: nat): (w: seq<nat>)
    requires Linked(t) && b in t
    ensures |w| <= n && (n > 0 ==> w != [])
    decreases n
  {
    assert LinkedAt(t, b);
    if n == 0 then []
    else if t[b].prev.None? then [t[b].time]
    else [t[b].time] + Window(t, t[b].prev.value, n - 1)
  }

  ghost function MedianTimePast(t: Tree, b: Hash): nat
    requires Linked(t) && b in t
  {
    Median(Window(t, b, MEDIAN_TIME_SPAN))
  }

  /** GetMedianTimePast; the library sort is Sorted. */
  method GetMedianTimePast(t: Tree, b: Option<Hash>) returns (time: nat)
    requires Linked(t) && (b.Some? ==> b.value in t)
    ensures time == if b.None? then 0 else MedianTimePast(t, b.value)
  {
    if b.None? {
      return 0;
    }
    var median, index, i := [], b, 0;
    while i < MEDIAN_TIME_SPAN && index.Some?
      invariant i <= MEDIAN_TIME_SPAN && (index.Some? ==> index.value in t) && (i == 0 ==> index == b)
      invariant Window(t, b.value, MEDIAN_TIME_SPAN) ==
                median + if index.None? then [] else Window(t, index.value, MEDIAN_TIME_SPAN - i)
    {
      assert LinkedAt(t, index.value);
      median := median + [t[index.value].time];
      index := t[index.value].prev;
      i := i + 1;
    }
    assert median == Window(t, b.value, MEDIAN_TIME_SPAN);
    var sorted := Sorted(median);
    time := sorted[|median| / 2];
  }

  /** A header must be later than the median of the blocks before it. */
  ghost predicate TimeRule(t: Tree)
    requires Linked(t)
  {
    forall b {:trigger LaterThanMedian(t, b)} :: b in t ==> LaterThanMedian(t, b)
  }

  ghost predicate LaterThanMedian(t: Tree, b: Hash)
    requires Linked(t) && b in t
  {
    assert LinkedAt(t, b);
    t[b].prev.Some? ==> t[b].time > MedianTimePast(t, t[b].prev.value)
  }

  datatype HeaderError = BadDiffBits | TimeTooOld | TimeTooNew | BadVersion

  datatype Params = Params(bip34Height: nat, bip66Height: nat, bip65Height: nat, csvHeight: nat, uahfHeight: nat,
                           daaHeight: nat, magneticAnomalyTime: int, greatWallTime: int)

  /** Versions 1, 2 and 3 are obsolete from the heights of BIP 34, 66 and 65. */
  predicate VersionAllowed(version: int, height: nat, p: Params) {
    version >= 4 ||
    (height < p.bip65Height &&
     (version == 3 || (height < p.bip66Height && (version == 2 || height < p.bip34Height))))
  }

  /** The checks of a header against its parent; the required difficulty bits and the adjusted time are given. */
  method ContextualCheckBlockHeader(t: Tree, prev: Option<Hash>, time: nat, version: int, bits: nat, requiredBits: nat,
                                    adjustedTime: int, params: Params)
    returns (r: Result<(), HeaderError>)
    requires Linked(t) && (prev.Some? ==> prev.value in t)
    ensures r.Success? <==>
            bits == requiredBits && time <= adjustedTime + 7200 &&
            time > (if prev.None? then 0 else MedianTimePast(t, prev.value)) &&
            VersionAllowed(version, if prev.None? then 0 else t[prev.value].height + 1, params)
    ensures r == Failure(TimeTooOld) <==>
            bits == requiredBits && time <= if prev.None? then 0 else MedianTimePast(t, prev.value)
  {
    hide MedianTimePast;
    var height := 0;
    if prev.Some? {
      height := t[prev.value].height + 1;
    }
    if bits != requiredBits {
      return Failure(BadDiffBits);
    }
    var median := GetMedianTimePast(t, prev);
    if time <= median {
      return Failure(TimeTooOld);
    }
    if time > adjustedTime + 2 * 60 * 60 {
      return Failure(TimeTooNew);
    }
    if (version < 2 && height >= params.bip34Height) || (version < 3 && height >= params.bip66Height) ||
       (version < 4 && height >= params.bip65Height)
    {
      return Failure(BadVersion);
    }
    r := Success(());
  }

  lemma {:induction false} AtLeastSnoc(s: seq<nat>, x: nat, m: nat)
    ensures AtLeast(s + [x], m) == AtLeast(s, m) + if x >= m then 1 else 0
  {
    if s == [] {
      assert s + [x] == [x];
    } else {
      AtLeastSnoc(s[1..], x, m);
      assert (s + [x])[1..] == s[1..] + [x];
    }
  }

  /** A window one longer has the same times, or one more at the far end. */
  lemma {:induction false} LongerWindow(t: Tree, b: Hash, n: nat)
    requires Linked(t) && b in t && n > 0
    ensures var short, long := Window(t, b, n), Window(t, b, n + 1);
            long == short || (|short| == n && |long| == n + 1 && long == short + [long[n]])
    decreases n
  {
    assert LinkedAt(t, b);
    if t[b].prev.Some? {
      var p := t[b].prev.value;
      assert LinkedAt(t, p);
      if n > 1 {
        LongerWindow(t, p, n - 1);
      } else {
        assert Window(t, p, 0) == [];
      }
    }
  }

  /** One block on, the median has not gone back. */
  lemma {:induction false} MedianStep(t: Tree, b: Hash)
    requires Linked(t) && b in t && LaterThanMedian(t, b) && t[b].prev.Some?
    ensures LinkedAt(t, b) && MedianTimePast(t, t[b].prev.value) <= MedianTimePast(t, b)
  {
    hide Median, AtLeast;
    assert LinkedAt(t, b);
    var p := t[b].prev.value;
    var m := MedianTimePast(t, p);
    var old11, common, new11 := Window(t, p, MEDIAN_TIME_SPAN), Window(t, p, MEDIAN_TIME_SPAN - 1), Window(t, b, MEDIAN_TIME_SPAN);
    assert new11 == [t[b].time] + common;
    MedianByCount(old11, m);
    MedianByCount(new11, m);
    LongerWindow(t, p, MEDIAN_TIME_SPAN - 1);
    AtLeastCons(t[b].time, common, m);
    if old11 != common {
      AtLeastSnoc(common, old11[MEDIAN_TIME_SPAN - 1], m);
    }
  }

  lemma {:induction false} AtLeastCons(x: nat, s: seq<nat>, m: nat)
    ensures AtLeast([x] + s, m) == AtLeast(s, m) + if x >= m then 1 else 0
  {
    assert ([x] + s)[1..] == s;
  }

  /** Along any chain that keeps the time rule, median time past never decreases. */
  lemma {:induction false} MedianTimeNeverDecreases(t: Tree, b: Hash, n: nat)
    requires Linked(t) && TimeRule(t) && b in t && n <= t[b].height
    ensures MedianTimePast(t, Walk(t, b, n)) <= MedianTimePast(t, b)
    decreases n
  {
    hide MedianTimePast;
    if n > 0 {
      assert LinkedAt(t, b) && LaterThanMedian(t, b);
      MedianStep(t, b);
      MedianTimeNeverDecreases(t, t[b].prev.value, n - 1);
    }
  }

  /* What switches on */

  const P2SH_ACTIVATION_TIME: nat := 1333234914

  /** The flags GetBlockScriptFlags gives after a block of this height ... */
  function HeightFlags(p: Params, height: nat): Flags {
    (if height + 1 >= p.bip66Height then {Dersig} else {}) +
    (if height + 1 >= p.bip65Height then {CheckLockTimeVerify} else {}) +
    (if height + 1 >= p.csvHeight then {CheckSequenceVerify} else {}) +
    (if height >= p.uahfHeight then {StrictEnc, SigHashForkID} else {}) +
    (if height >= p.daaHeight then {LowS, NullFail} else {})
  }

  /** ... and of this median time. */
  function TimeFlags(p: Params, mtp: nat): Flags {
    (if mtp >= P2SH_ACTIVATION_TIME then {P2SH} else {}) +
    (if IsMagneticAnomalyEnabled(p, mtp) then {CheckDataSig, SigPushOnly, CleanStack} else {}) +
    (if IsReplayProtectionEnabled(p, mtp) then {ReplayProtection} else {})
  }

  function ScriptFlagsAfter(p: Params, height: nat, mtp: nat): Flags {
    HeightFlags(p, height) + TimeFlags(p, mtp)
  }

  /** For which blocks each rule holds, for the block after one of this height and median time. */
  predicate IsActive(f: Flag, p: Params, height: nat, mtp: nat) {
    match f
    case P2SH => mtp >= 1333234914
    case Dersig => height + 1 >= p.bip66Height
    case CheckLockTimeVerify => height + 1 >= p.bip65Height
    case CheckSequenceVerify => height + 1 >= p.csvHeight
    case StrictEnc => height >= p.uahfHeight
    case SigHashForkID => height >= p.uahfHeight
    case LowS => height >= p.daaHeight
    case NullFail => height >= p.daaHeight
    case CheckDataSig => mtp >= p.magneticAnomalyTime
    case SigPushOnly => mtp >= p.magneticAnomalyTime
    case CleanStack => mtp >= p.magneticAnomalyTime
    case ReplayProtection => mtp >= p.greatWallTime
    case _ => false
  }

  lemma {:induction false} FlagByFlag(f: Flag, p: Params, height: nat, mtp: nat)
    ensures f in ScriptFlagsAfter(p, height, mtp) <==> IsActive(f, p, height, mtp)
  {
    hide HeightFlags, TimeFlags;
    ByHeight(f, p, height, mtp);
    ByTime(f, p, height, mtp);
  }

  predicate ComesWithTime(f: Flag) {
    f == P2SH || f == CheckDataSig || f == SigPushOnly || f == CleanStack || f == ReplayProtection
  }

  lemma {:induction false} ByHeight(f: Flag, p: Params, height: nat, mtp: nat)
    ensures f in HeightFlags(p, height) <==> !ComesWithTime(f) && IsActive(f, p, height, mtp)
  {
  }

  lemma {:induction false} ByTime(f: Flag, p: Params, height: nat, mtp: nat)
    ensures f in TimeFlags(p, mtp) <==> ComesWithTime(f) && IsActive(f, p, height, mtp)
  {
  }

  /** The flags of a block never make VerifyScript panic, if the later rule comes later. */
  lemma {:induction false} CleanStackComesWithP2SH(p: Params)
    ensures (forall height, mtp :: CleanStack in ScriptFlagsAfter(p, height, mtp) ==> P2SH in ScriptFlagsAfter(p, height, mtp)) <==>
            p.magneticAnomalyTime >= 1333234914
  {
    hide ScriptFlagsAfter;
    forall height: nat, mtp: nat
      ensures CleanStack in ScriptFlagsAfter(p, height, mtp) <==> mtp >= p.magneticAnomalyTime
      ensures P2SH in ScriptFlagsAfter(p, height, mtp) <==> mtp >= 1333234914
    {
      FlagByFlag(CleanStack, p, height, mtp);
      FlagByFlag(P2SH, p, height, mtp);
    }
    var m: nat := if p.magneticAnomalyTime < 0 then 0 else p.magneticAnomalyTime;
    assert CleanStack in ScriptFlagsAfter(p, 0, m);
  }

  /** The activation times are the network's, or the ones configured in their place. */
  predicate IsMagneticAnomalyEnabled(p: Params, mtp: nat) { mtp >= p.magneticAnomalyTime }

  predicate IsReplayProtectionEnabled(p: Params, mtp: nat) { mtp >= p.greatWallTime }

  method GetBlockScriptFlags(t: Tree, b: Hash, p: Params) returns (flags: Flags)
    requires Linked(t) && b in t
    ensures flags == ScriptFlagsAfter(p, t[b].height, MedianTimePast(t, b))
    ensures forall f :: f in flags <==> IsActive(f, p, t[b].height, MedianTimePast(t, b))
  {
    hide MedianTimePast, HeightFlags, IsActive;
    var mtp := GetMedianTimePast(t, Some(b));
    flags := if mtp >= P2SH_ACTIVATION_TIME then {P2SH} else {};
    var byHeight := AddHeightFlags(flags, t[b].height, p);
    flags := byHeight;
    if IsMagneticAnomalyEnabled(p, mtp) {
      flags := flags + {CheckDataSig} + {SigPushOnly} + {CleanStack};
    }
    if IsReplayProtectionEnabled(p, mtp) {
      flags := flags + {ReplayProtection};
    }
    forall f
      ensures f in ScriptFlagsAfter(p, t[b].height, mtp) <==> IsActive(f, p, t[b].height, mtp)
    {
      FlagByFlag(f, p, t[b].height, mtp);
    }
  }

  method AddHeightFlags(start: Flags, height: nat, p: Params) returns (flags: Flags)
    ensures flags == start + HeightFlags(p, height)
  {
    flags := start;
    if height + 1 >= p.bip66Height {
      flags := flags + {Dersig};
    }
    if height + 1 >= p.bip65Height {
      flags := flags + {CheckLockTimeVerify};
    }
    if height + 1 >= p.csvHeight {
      flags := flags + {CheckSequenceVerify};
    }
    if height >= p.uahfHeight {
      flags := flags + {StrictEnc} + {SigHashForkID};
    }
    if height >= p.daaHeight {
      flags := flags + {LowS} + {NullFail};
    }
  }

  lemma {:induction false} MoreFlagsLater(p: Params, height: nat, mtp: nat, height': nat, mtp': nat)
    requires height <= height' && mtp <= mtp'
    ensures ScriptFlagsAfter(p, height, mtp) <= ScriptFlagsAfter(p, height', mtp')
  {
  }

  /** Script flags only grow along a chain. */
  lemma {:induction false} FlagsOnlyGrow(t: Tree, b: Hash, n: nat, p: Params)
    requires Linked(t) && TimeRule(t) && b in t && n <= t[b].height
    ensures var a := Walk(t, b, n);
            ScriptFlagsAfter(p, t[a].height, MedianTimePast(t, a)) <= ScriptFlagsAfter(p, t[b].height, MedianTimePast(t, b))
  {
    hide ScriptFlagsAfter, MedianTimePast;
    var a := Walk(t, b, n);
    MedianTimeNeverDecreases(t, b, n);
    MoreFlagsLater(p, t[a].height, MedianTimePast(t, a), t[b].height, MedianTimePast(t, b));
  }

  /** The block itself has the rule, its parent had not. */
  ghost predicate JustEnabled(t: Tree, b: Hash, enabled: nat -> bool)
    requires Linked(t) && b in t
  {
    assert LinkedAt(t, b);
    t[b].prev.Some? && !enabled(MedianTimePast(t, t[b].prev.value)) && enabled(MedianTimePast(t, b))
  }

  ghost predicate StaysOn(enabled: nat -> bool) {
    forall x, y :: enabled(x) && x <= y ==> enabled(y)
  }

  /** A rule that comes with median time is just enabled in at most one block of a chain. */
  lemma {:induction false} JustEnabledOnce(t: Tree, b: Hash, n: nat, enabled: nat -> bool)
    requires Linked(t) && TimeRule(t) && b in t && 0 < n <= t[b].height && StaysOn(enabled)
    requires JustEnabled(t, b, enabled)
    ensures !JustEnabled(t, Walk(t, b, n), enabled)
  {
    hide MedianTimePast;
    assert LinkedAt(t, b);
    var p := t[b].prev.value;
    assert Walk(t, b, n) == Walk(t, p, n - 1);
    MedianTimeNeverDecreases(t, p, n - 1);
    assert !enabled(MedianTimePast(t, p));
  }

  lemma {:induction false} ForksStayOn(p: Params)
    ensures StaysOn((mtp: nat) => IsMagneticAnomalyEnabled(p, mtp)) && StaysOn((mtp: nat) => IsReplayProtectionEnabled(p, mtp))
  {
  }
}
