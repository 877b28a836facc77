/**
 * Straight detection (src/HandEvaluator.java): `isStraight`,
 * `hasAceLowStraight` / `hasAceLowStraightDistinct`, `checkStraight` and
 * `checkStraightFlush`, each stated against a plain definition of a run of
 * five consecutive ranks.
 */
module Straights {
  import opened Cards
  import opened CardLists

  /** The ranks low, low+1, ..., low+len-1 (len at most 5) all occur in rs. */
  predicate RunUp(rs: seq<int>, low: int, len: int) {
    && (len > 0 ==> low in rs)
    && (len > 1 ==> low + 1 in rs)
    && (len > 2 ==> low + 2 in rs)
    && (len > 3 ==> low + 3 in rs)
    && (len > 4 ==> low + 4 in rs)
  }

  /** Some five consecutive ranks all occur (the ace counts high only). */
  predicate ContainsRun(rs: seq<int>) {
    exists k :: 0 <= k < |rs| && RunUp(rs, rs[k], 5)
  }

  /** Ace, 2, 3, 4 and 5 all occur. */
  predicate HasWheel(rs: seq<int>) {
    14 in rs && 2 in rs && 3 in rs && 4 in rs && 5 in rs
  }

  predicate StrictlyDescending(d: seq<int>) {
    forall i, j :: 0 <= i < j < |d| ==> d[i] > d[j]
  }

  /** Rank x occurs at position i or later. */
  predicate OccursFrom(rs: seq<int>, x: int, i: nat) {
    exists k :: i <= k < |rs| && rs[k] == x
  }

  /** The five flags hasAce, has2, has3, has4, has5 after scanning rs from position i on. */
  function AceLowFlags(rs: seq<int>, i: nat): (f: (bool, bool, bool, bool, bool))
    requires i <= |rs|
    decreases |rs| - i
    ensures f.0 <==> OccursFrom(rs, 14, i)
    ensures f.1 <==> OccursFrom(rs, 2, i)
    ensures f.2 <==> OccursFrom(rs, 3, i)
    ensures f.3 <==> OccursFrom(rs, 4, i)
    ensures f.4 <==> OccursFrom(rs, 5, i)
  {
    if i == |rs| then (false, false, false, false, false)
    else
      var f := AceLowFlags(rs, i + 1);
      var r := rs[i];
      if r == 14 then (true, f.1, f.2, f.3, f.4)
      else if r == 2 then (f.0, true, f.2, f.3, f.4)
      else if r == 3 then (f.0, f.1, true, f.3, f.4)
      else if r == 4 then (f.0, f.1, f.2, true, f.4)
      else if r == 5 then (f.0, f.1, f.2, f.3, true)
      else f
  }

  /** `hasAceLowStraight` and its identical twin `hasAceLowStraightDistinct`. */
  function HasAceLowStraight(rs: seq<int>): (b: bool)
    ensures b <==> HasWheel(rs)
  {
    var f := AceLowFlags(rs, 0);
    assert forall x :: OccursFrom(rs, x, 0) <==> x in rs;
    f.0 && f.1 && f.2 && f.3 && f.4
  }

  /**
   * The loop of `isStraight` from position i on: `count` consecutive
   * distinct ranks end at `lastRank`; a repeated rank is skipped.
   */
  predicate StraightScan(rs: seq<int>, i: nat, count: int, lastRank: int)
    decreases |rs| - i
  {
    if i >= |rs| || count >= 5 then false
    else if rs[i] == lastRank - 1 then
      count + 1 == 5 || StraightScan(rs, i + 1, count + 1, rs[i])
    else if rs[i] != lastRank then StraightScan(rs, i + 1, 1, rs[i])
    else StraightScan(rs, i + 1, count, lastRank)
  }

  /** `isStraight`: false below five cards, otherwise the scan from the first card. */
  predicate IsStraight(rs: seq<int>) {
    |rs| >= 5 && StraightScan(rs, 1, 1, rs[0])
  }

  /** In a descending list every entry of the prefix rs[..i] is at least rs[i-1]. */
  lemma PrefixAtLeastLast(rs: seq<int>, i: int)
    requires Descending(rs) && 1 <= i <= |rs|
    ensures forall x :: x in rs[..i] ==> x >= rs[i - 1]
  {
    forall x | x in rs[..i] ensures x >= rs[i - 1] {
      var j :| 0 <= j < i && rs[..i][j] == x;
    }
  }

  /** A run in a sub-list is a run in the whole list. */
  lemma RunInSuffix(rs: seq<int>, j: int)
    requires 0 <= j <= |rs|
    ensures ContainsRun(rs[j..]) ==> ContainsRun(rs)
  {
    if ContainsRun(rs[j..]) {
      var t := rs[j..];
      var k :| 0 <= k < |t| && RunUp(t, t[k], 5);
      assert forall x :: x in t ==> x in rs;
      assert rs[j + k] == t[k];
      assert RunUp(rs, rs[j + k], 5);
    }
  }

  lemma RunInPrefix(rs: seq<int>, i: int)
    requires 0 <= i <= |rs|
    ensures ContainsRun(rs[..i]) ==> ContainsRun(rs)
  {
    if ContainsRun(rs[..i]) {
      var t := rs[..i];
      var k :| 0 <= k < |t| && RunUp(t, t[k], 5);
      assert forall x :: x in t ==> x in rs;
      assert rs[k] == t[k];
      assert RunUp(rs, rs[k], 5);
    }
  }

  /** Five distinct values need five positions. */
  lemma RunNeedsFive(rs: seq<int>, low: int)
    requires Descending(rs) && RunUp(rs, low, 5)
    ensures |rs| >= 5
  {
    var p4 :| 0 <= p4 < |rs| && rs[p4] == low + 4;
    var p3 :| 0 <= p3 < |rs| && rs[p3] == low + 3;
    var p2 :| 0 <= p2 < |rs| && rs[p2] == low + 2;
    var p1 :| 0 <= p1 < |rs| && rs[p1] == low + 1;
    var p0 :| 0 <= p0 < |rs| && rs[p0] == low;
    assert p4 < p3 < p2 < p1 < p0;
  }

  /**
   * Appending a rank no larger than any before it creates a run of five
   * only if the run starts at that rank.
   */
  lemma AppendKeepsNoRun(p: seq<int>, cur: int)
    requires forall x :: x in p ==> x >= cur
    requires !ContainsRun(p) && !RunUp(p + [cur], cur, 5)
    ensures !ContainsRun(p + [cur])
  {
    var q := p + [cur];
    forall k | 0 <= k < |q| ensures !RunUp(q, q[k], 5) {
      if q[k] != cur {
        assert k < |p| && q[k] == p[k];
        assert !RunUp(p, p[k], 5);
        assert forall x :: x in q && x != cur ==> x in p;
        var low := q[k];
        assert RunUp(q, low, 5) ==> RunUp(p, low, 5);
      }
    }
  }

  /**
   * The invariant of the `isStraight` loop before position i: `count`
   * (below 5) consecutive ranks end at `lastRank` in the part scanned so
   * far and cannot be extended upwards, and that part holds no run of five.
   */
  predicate ScanInv(rs: seq<int>, i: int, count: int, lastRank: int) {
    && Descending(rs)
    && 1 <= i <= |rs| && lastRank == rs[i - 1]
    && 1 <= count <= 4
    && RunUp(rs[..i], lastRank, count) && lastRank + count !in rs[..i]
    && !ContainsRun(rs[..i])
  }

  /** Facts about the prefix one position longer. */
  lemma ScanPrefix(rs: seq<int>, i: int)
    requires Descending(rs) && 1 <= i < |rs|
    ensures rs[..i + 1] == rs[..i] + [rs[i]]
    ensures forall x :: x in rs[..i + 1] <==> x in rs[..i] || x == rs[i]
    ensures forall x :: x in rs[..i] ==> x >= rs[i - 1] >= rs[i]
  {
    assert rs[..i + 1] == rs[..i] + [rs[i]];
    PrefixAtLeastLast(rs, i);
  }

  lemma ScanStepConsecutive(rs: seq<int>, i: int, count: int, lastRank: int)
    requires ScanInv(rs, i, count, lastRank) && i < |rs|
    requires rs[i] == lastRank - 1 && count + 1 < 5
    ensures ScanInv(rs, i + 1, count + 1, rs[i])
  {
    ScanPrefix(rs, i);
    assert RunUp(rs[..i + 1], rs[i], count + 1);
    assert rs[i] + count + 1 !in rs[..i + 1];
    AppendKeepsNoRun(rs[..i], rs[i]);
  }

  lemma ScanStepComplete(rs: seq<int>, i: int, count: int, lastRank: int)
    requires ScanInv(rs, i, count, lastRank) && i < |rs|
    requires rs[i] == lastRank - 1 && count + 1 == 5
    ensures ContainsRun(rs)
  {
    ScanPrefix(rs, i);
    assert RunUp(rs[..i + 1], rs[i], 5);
    assert forall x :: x in rs[..i + 1] ==> x in rs;
    assert RunUp(rs, rs[i], 5);
  }

  lemma ScanStepReset(rs: seq<int>, i: int, count: int, lastRank: int)
    requires ScanInv(rs, i, count, lastRank) && i < |rs|
    requires rs[i] != lastRank - 1 && rs[i] != lastRank
    ensures ScanInv(rs, i + 1, 1, rs[i])
  {
    ScanPrefix(rs, i);
    assert RunUp(rs[..i + 1], rs[i], 1);
    assert rs[i] + 1 !in rs[..i + 1];
    AppendKeepsNoRun(rs[..i], rs[i]);
  }

  lemma ScanStepRepeat(rs: seq<int>, i: int, count: int, lastRank: int)
    requires ScanInv(rs, i, count, lastRank) && i < |rs|
    requires rs[i] == lastRank
    ensures ScanInv(rs, i + 1, count, lastRank)
  {
    ScanPrefix(rs, i);
    assert RunUp(rs[..i + 1], lastRank, count);
    assert lastRank + count !in rs[..i + 1];
    AppendKeepsNoRun(rs[..i], rs[i]);
  }

  /** The scan at the end of the list: false, and no run occurs. */
  lemma ScanAtEnd(rs: seq<int>, i: nat, count: int, lastRank: int)
    requires ScanInv(rs, i, count, lastRank) && i == |rs|
    ensures !StraightScan(rs, i, count, lastRank) && !ContainsRun(rs)
  {
    assert rs[..i] == rs;
  }

  /** One step of the scan: the answer from i is the answer from the next state. */
  lemma ScanUnfold(rs: seq<int>, i: nat, count: int, lastRank: int)
    requires i < |rs| && count < 5
    ensures rs[i] == lastRank - 1 && count + 1 == 5 ==> StraightScan(rs, i, count, lastRank)
    ensures rs[i] == lastRank - 1 && count + 1 < 5 ==>
              StraightScan(rs, i, count, lastRank) == StraightScan(rs, i + 1, count + 1, rs[i])
    ensures rs[i] != lastRank - 1 && rs[i] != lastRank ==>
              StraightScan(rs, i, count, lastRank) == StraightScan(rs, i + 1, 1, rs[i])
    ensures rs[i] == lastRank ==>
              StraightScan(rs, i, count, lastRank) == StraightScan(rs, i + 1, count, lastRank)
  {
  }

  /** From a state satisfying the loop invariant, the scan answers whether a run occurs. */
  lemma {:induction false} ScanCorrect(rs: seq<int>, i: nat, count: int, lastRank: int)
    requires ScanInv(rs, i, count, lastRank)
    ensures StraightScan(rs, i, count, lastRank) <==> ContainsRun(rs)
    decreases |rs| - i
  {
    if i == |rs| {
      ScanAtEnd(rs, i, count, lastRank);
    } else {
      ScanUnfold(rs, i, count, lastRank);
      if rs[i] == lastRank - 1 {
        if count + 1 == 5 {
          ScanStepComplete(rs, i, count, lastRank);
        } else {
          ScanStepConsecutive(rs, i, count, lastRank);
          ScanCorrect(rs, i + 1, count + 1, rs[i]);
        }
      } else if rs[i] != lastRank {
        ScanStepReset(rs, i, count, lastRank);
        ScanCorrect(rs, i + 1, 1, rs[i]);
      } else {
        ScanStepRepeat(rs, i, count, lastRank);
        ScanCorrect(rs, i + 1, count, lastRank);
      }
    }
  }

  /** On a rank-descending list, `isStraight` holds iff five consecutive ranks occur. */
  lemma IsStraightIff(rs: seq<int>)
    requires Descending(rs)
    ensures IsStraight(rs) <==> ContainsRun(rs)
  {
    if |rs| < 5 {
      if ContainsRun(rs) {
        var k :| 0 <= k < |rs| && RunUp(rs, rs[k], 5);
        RunNeedsFive(rs, rs[k]);
      }
    } else {
      var p := rs[..1];
      assert p == [rs[0]];
      forall k | 0 <= k < |p| ensures !RunUp(p, p[k], 5) {
      }
      ScanCorrect(rs, 1, 1, rs[0]);
    }
  }

  /** The list `checkStraight` builds: each rank kept once, dropping repeats of the previous one. */
  function DistinctRanks(rs: seq<int>, last: int): (d: seq<int>)
    ensures forall x :: x in d ==> x in rs
    ensures forall x :: x in rs && x != last ==> x in d
    ensures Descending(rs) ==> StrictlyDescending(d)
    ensures Descending(rs) && (forall k :: 0 <= k < |rs| ==> rs[k] <= last) ==>
              forall k :: 0 <= k < |d| ==> d[k] < last
  {
    if |rs| == 0 then []
    else if rs[0] != last then [rs[0]] + DistinctRanks(rs[1..], rs[0])
    else DistinctRanks(rs[1..], last)
  }

  /** The first i with d[i] == d[i+4] + 4, scanning i up to |d| - 5, or -1. */
  function FirstRunStart(d: seq<int>, i: nat): (k: int)
    decreases |d| - i
    ensures k == -1 || (i <= k && k + 4 < |d| && d[k] == d[k + 4] + 4)
    ensures forall j :: i <= j && j + 4 < |d| && (k == -1 || j < k) ==> d[j] != d[j + 4] + 4
  {
    if i + 5 > |d| then -1
    else if d[i] == d[i + 4] + 4 then i
    else FirstRunStart(d, i + 1)
  }

  /** In a strictly descending list, a drop of 4 over 4 steps is a run of five. */
  lemma DropOfFourIsRun(d: seq<int>, i: int)
    requires StrictlyDescending(d) && 0 <= i && i + 4 < |d| && d[i] == d[i + 4] + 4
    ensures RunUp(d, d[i + 4], 5)
  {
    assert d[i] > d[i + 1] > d[i + 2] > d[i + 3] > d[i + 4];
    assert d[i + 3] == d[i + 4] + 1 && d[i + 2] == d[i + 4] + 2 && d[i + 1] == d[i + 4] + 3;
  }

  lemma StepDown(d: seq<int>, j: int)
    requires StrictlyDescending(d) && 0 <= j < |d| && d[j] - 1 in d
    ensures j + 1 < |d| && d[j + 1] == d[j] - 1
  {
    var p :| 0 <= p < |d| && d[p] == d[j] - 1;
    assert p > j;
    assert d[j + 1] >= d[p];
  }

  /** In a strictly descending list, the top of a run sits four places before its bottom. */
  lemma RunTopPosition(d: seq<int>, j: int)
    requires StrictlyDescending(d) && 0 <= j < |d| && RunUp(d, d[j] - 4, 5)
    ensures j + 4 < |d| && d[j] == d[j + 4] + 4
  {
    StepDown(d, j);
    StepDown(d, j + 1);
    StepDown(d, j + 2);
    StepDown(d, j + 3);
  }

  /**
   * `checkStraight`: the top rank of the highest run of five distinct
   * consecutive ranks; else 5 for A-2-3-4-5; else 0.
   */
  function CheckStraight(rs: seq<int>): (v: int)
    requires InRange(rs) && Descending(rs)
    ensures v == 0 <==> !ContainsRun(rs) && !HasWheel(rs)
    ensures ContainsRun(rs) ==>
              RunUp(rs, v - 4, 5) &&
              forall k :: 0 <= k < |rs| && RunUp(rs, rs[k], 5) ==> rs[k] + 4 <= v
    ensures !ContainsRun(rs) && HasWheel(rs) ==> v == 5
    ensures v == 0 || 5 <= v <= 14
  {
    var d := DistinctRanks(rs, -1);
    var i := FirstRunStart(d, 0);
    CheckStraightFacts(rs, d, i);
    if i >= 0 then d[i] else if HasAceLowStraight(d) then 5 else 0
  }

  /** A run carries over to any list holding at least the same ranks. */
  lemma RunTransfer(a: seq<int>, b: seq<int>, low: int)
    requires forall x :: x in a ==> x in b
    requires RunUp(a, low, 5)
    ensures RunUp(b, low, 5)
  {
  }

  /** Every run of five is found by the scan, at or before the position of its top. */
  lemma RunFoundByScan(rs: seq<int>, d: seq<int>, k: int)
    requires StrictlyDescending(d) && forall x :: x in d <==> x in rs
    requires 0 <= k < |rs| && RunUp(rs, rs[k], 5)
    ensures FirstRunStart(d, 0) >= 0 && rs[k] + 4 <= d[FirstRunStart(d, 0)]
  {
    var low := rs[k];
    RunTransfer(rs, d, low);
    var j :| 0 <= j < |d| && d[j] == low + 4;
    assert d[j] - 4 == low;
    RunTopPosition(d, j);
  }

  /** The distinct-rank list holds exactly the ranks of the hand. */
  lemma DistinctRanksSameMembers(rs: seq<int>)
    requires InRange(rs) && Descending(rs)
    ensures forall x :: x in DistinctRanks(rs, -1) <==> x in rs
    ensures StrictlyDescending(DistinctRanks(rs, -1))
  {
    assert forall x :: x in rs ==> x != -1;
  }

  /** Where the scan stops, five consecutive ranks occur, topped by the rank found. */
  lemma ScanHitIsRun(rs: seq<int>, d: seq<int>, i: int)
    requires InRange(rs)
    requires StrictlyDescending(d) && forall x :: x in d <==> x in rs
    requires i == FirstRunStart(d, 0) && i >= 0
    ensures ContainsRun(rs) && RunUp(rs, d[i] - 4, 5) && 6 <= d[i] <= 14
  {
    DropOfFourIsRun(d, i);
    var low := d[i + 4];
    RunTransfer(d, rs, low);
    assert low in rs;
    var k :| 0 <= k < |rs| && rs[k] == low;
    assert RunUp(rs, rs[k], 5);
    assert d[i] in rs;
  }

  lemma CheckStraightFacts(rs: seq<int>, d: seq<int>, i: int)
    requires InRange(rs) && Descending(rs)
    requires d == DistinctRanks(rs, -1) && i == FirstRunStart(d, 0)
    ensures forall x :: x in d <==> x in rs
    ensures i >= 0 ==> ContainsRun(rs) && RunUp(rs, d[i] - 4, 5) && 6 <= d[i] <= 14
    ensures forall k :: 0 <= k < |rs| && RunUp(rs, rs[k], 5) ==> i >= 0 && rs[k] + 4 <= d[i]
    ensures i < 0 ==> !ContainsRun(rs)
  {
    DistinctRanksSameMembers(rs);
    assert StrictlyDescending(d) && forall x :: x in d <==> x in rs;
    forall k | 0 <= k < |rs| && RunUp(rs, rs[k], 5) ensures i >= 0 && rs[k] + 4 <= d[i] {
      RunFoundByScan(rs, d, k);
    }
    if i >= 0 {
      ScanHitIsRun(rs, d, i);
    }
  }

  /** The first tail ss[i..] (i up to |ss| - 5) on which `isStraight` holds, or -1. */
  function FirstStraightTail(ss: seq<int>, i: nat): (k: int)
    decreases |ss| - i
    ensures k == -1 || (i <= k && k + 5 <= |ss| && IsStraight(ss[k..]))
    ensures k != i && i + 5 <= |ss| ==> !IsStraight(ss[i..])
  {
    if i + 5 > |ss| then -1
    else if IsStraight(ss[i..]) then i
    else FirstStraightTail(ss, i + 1)
  }

  /** With an ace on top and a 5 next, no five consecutive ranks can occur. */
  lemma AceThenFiveHasNoRun(ss: seq<int>)
    requires InRange(ss) && Descending(ss) && |ss| >= 2 && ss[0] == 14 && ss[1] == 5
    ensures !ContainsRun(ss)
  {
    forall m | 0 <= m < |ss| ensures ss[m] == 14 || 2 <= ss[m] <= 5 {
      if m >= 1 {
        assert ss[m] <= ss[1];
      }
    }
    assert forall x :: x in ss ==> x == 14 || 2 <= x <= 5;
  }

  /**
   * The per-suit body of `checkStraightFlush` on that suit's ranks (rank
   * descending), 0 standing for "try the next suit". Because `isStraight`
   * scans the whole tail, the first tail found is the whole list, so the
   * value comes from the suit's top card, not from the top of its run.
   */
  function SuitStraightFlush(ss: seq<int>): (v: int)
    requires InRange(ss) && Descending(ss)
    ensures v == 0 <==> |ss| < 5 || (!ContainsRun(ss) && !HasWheel(ss))
    ensures |ss| >= 5 && ContainsRun(ss) ==> v == ss[0] - 4
    ensures |ss| >= 5 && !ContainsRun(ss) && HasWheel(ss) ==> v == 1
    ensures 0 <= v <= 10
  {
    if |ss| < 5 then 0
    else
      var i := FirstStraightTail(ss, 0);
      SuitStraightFlushFacts(ss, i);
      if i >= 0 then
        if ss[i] == 14 && ss[i + 1] == 5 then 5 else ss[i] - 4
      else if HasAceLowStraight(ss) then 1
      else 0
  }

  lemma SuitStraightFlushFacts(ss: seq<int>, i: int)
    requires InRange(ss) && Descending(ss) && |ss| >= 5
    requires i == FirstStraightTail(ss, 0)
    ensures i >= 0 <==> ContainsRun(ss)
    ensures i >= 0 ==> i == 0 && !(ss[0] == 14 && ss[1] == 5) && 6 <= ss[0]
  {
    IsStraightIff(ss);
    assert ss[0..] == ss;
    if i >= 0 {
      assert ss[i..] == ss[i..];
      IsStraightIff(ss[i..]);
      RunInSuffix(ss, i);
      if ss[0] == 14 && ss[1] == 5 {
        AceThenFiveHasNoRun(ss);
      }
      RunTop(ss);
    }
  }

  /** A run of five ranks tops out at 6 or more, so a descending list holding one starts there. */
  lemma RunTop(ss: seq<int>)
    requires InRange(ss) && Descending(ss) && ContainsRun(ss)
    ensures 6 <= ss[0]
  {
    var k :| 0 <= k < |ss| && RunUp(ss, ss[k], 5);
    var j :| 0 <= j < |ss| && ss[j] == ss[k] + 4;
    if j > 0 {
      assert ss[0] >= ss[j];
    }
  }

  /** The ranks of suit s, rank descending. */
  function SuitRanks(h: seq<Card>, s: Suit): (ss: seq<int>)
    ensures InRange(ss) && |ss| <= |h|
    ensures RankDescending(h) ==> Descending(ss)
    ensures RankDescending(h) && |h| > 0 ==> forall k :: 0 <= k < |ss| ==> ss[k] <= h[0].rank
  {
    if |h| == 0 then []
    else (if h[0].suit == s then [h[0].rank] else []) + SuitRanks(h[1..], s)
  }

  /** Suit s holds five cards with five consecutive ranks or A-2-3-4-5. */
  predicate SuitQualifies(h: seq<Card>, s: Suit) {
    var ss := SuitRanks(h, s);
    |ss| >= 5 && (ContainsRun(ss) || HasWheel(ss))
  }

  lemma SuitQualifiesIff(h: seq<Card>, t: Suit)
    requires RankDescending(h)
    ensures SuitQualifies(h, t) <==> SuitStraightFlush(SuitRanks(h, t)) != 0
  {
  }

  /** The straight flush value of suit t alone: nonzero exactly when the suit qualifies. */
  function SuitValue(h: seq<Card>, t: Suit): (v: int)
    requires RankDescending(h)
    ensures 0 <= v <= 10
    ensures v != 0 <==> SuitQualifies(h, t)
  {
    SuitQualifiesIff(h, t);
    SuitStraightFlush(SuitRanks(h, t))
  }

  /** Suits s up to t (exclusive) all have value 0. */
  predicate NoneBetween(h: seq<Card>, s: int, t: int)
    requires RankDescending(h)
  {
    forall u: Suit :: s <= u < t ==> SuitValue(h, u) == 0
  }

  /** Peeling suit s off the front of a range of suits. */
  lemma NoneBetweenStep(h: seq<Card>, s: int, t: int)
    requires RankDescending(h) && 0 <= s < t <= 4
    ensures NoneBetween(h, s, t) <==> SuitValue(h, s) == 0 && NoneBetween(h, s + 1, t)
  {
    if s <= 3 && SuitValue(h, s) != 0 {
      var u: Suit := s;
      assert s <= u < t && SuitValue(h, u) != 0;
    }
  }

  /** The suit loop of `checkStraightFlush` from suit s on. */
  function StraightFlushFrom(h: seq<Card>, s: int): (v: int)
    requires RankDescending(h) && 0 <= s <= 4
    decreases 4 - s
    ensures 0 <= v <= 10
    ensures v == 0 <==> NoneBetween(h, s, 4)
    ensures v != 0 ==> exists t: Suit :: s <= t && v == SuitValue(h, t) && NoneBetween(h, s, t)
  {
    if s == 4 then 0
    else
      var v := SuitValue(h, s);
      NoneBetweenStep(h, s, 4);
      if v > 0 then
        var t: Suit := s;
        assert NoneBetween(h, s, t);
        v
      else
        var w := StraightFlushFrom(h, s + 1);
        assert w != 0 ==> exists t: Suit :: s + 1 <= t && w == SuitValue(h, t) && NoneBetween(h, s + 1, t);
        assert forall t: Suit :: s + 1 <= t ==> NoneBetween(h, s + 1, t) ==> NoneBetween(h, s, t) by {
          forall t: Suit | s + 1 <= t ensures NoneBetween(h, s + 1, t) ==> NoneBetween(h, s, t) {
            NoneBetweenStep(h, s, t);
          }
        }
        w
  }

  /**
   * `checkStraightFlush` on the rank-descending card list: the value of the
   * lowest-indexed suit holding a five-card run or a suited A-2-3-4-5.
   */
  function CheckStraightFlush(h: seq<Card>): (v: int)
    requires RankDescending(h)
    ensures 0 <= v <= 10
    ensures v == 0 <==> NoneBetween(h, 0, 4)
    ensures v != 0 ==> exists t: Suit :: v == SuitValue(h, t) && NoneBetween(h, 0, t)
  {
    StraightFlushFrom(h, 0)
  }

  /**
   * In terms of the suits themselves: `checkStraightFlush` finds a value
   * exactly when some suit qualifies, and the value is that of the first
   * qualifying suit.
   */
  lemma CheckStraightFlushSuits(h: seq<Card>)
    requires RankDescending(h)
    ensures CheckStraightFlush(h) == 0 <==> forall t: Suit :: !SuitQualifies(h, t)
    ensures CheckStraightFlush(h) != 0 ==> exists t: Suit :: (FirstQualifying(h, t) &&
              CheckStraightFlush(h) == SuitStraightFlush(SuitRanks(h, t)))
  {
    var v := CheckStraightFlush(h);
    if v != 0 {
      var t: Suit :| v == SuitValue(h, t) && NoneBetween(h, 0, t);
      forall u: Suit | u < t ensures !SuitQualifies(h, u) {
        assert SuitValue(h, u) == 0;
      }
      assert SuitQualifies(h, t);
      assert FirstQualifying(h, t);
    } else {
      forall t: Suit ensures !SuitQualifies(h, t) {
        assert SuitValue(h, t) == 0;
      }
    }
  }

  /** Suit t qualifies and no lower-indexed suit does. */
  predicate FirstQualifying(h: seq<Card>, t: Suit) {
    SuitQualifies(h, t) && forall u: Suit :: u < t ==> !SuitQualifies(h, u)
  }
}
