/**
 * The count- and suit-based category checks of src/HandEvaluator.java and
 * the `used` bookkeeping that picks kickers. Each check reads the
 * rank-descending hand; 0 means "category not present".
 */
module Categories {
  import opened Cards
  import opened CardLists

  /**
   * The highest rank other than `exclude` held at least `atLeast` times,
   * or 0: the "keep the largest qualifying rank" loop over `countRanks`.
   */
  function HighestHeld(rs: seq<int>, atLeast: nat, exclude: int): (b: int)
    requires atLeast >= 1
    ensures b == 0 || (2 <= b <= 14 && b != exclude && Count(rs, b) >= atLeast)
    ensures forall x :: 2 <= x <= 14 && x > b && x != exclude ==> Count(rs, x) < atLeast
  {
    var m := CountRanks(rs);
    var b := HighestWithCount(m, atLeast, exclude, 14);
    assert forall x :: x !in m ==> Count(rs, x) == 0;
    b
  }

  /**
   * `checkFourOfAKind`: the first rank, in the count map's ascending
   * iteration order, held exactly four times, or 0.
   */
  function CheckFourOfAKind(rs: seq<int>): (q: int)
    ensures q == 0 <==> forall x :: 2 <= x <= 14 ==> Count(rs, x) != 4
    ensures q != 0 ==> 2 <= q <= 14 && Count(rs, q) == 4
    ensures q != 0 ==> forall x :: 2 <= x < q ==> Count(rs, x) != 4
  {
    var m := CountRanks(rs);
    assert forall x :: x !in m ==> Count(rs, x) == 0;
    LowestWithCount(m, 4, 2)
  }

  /** The three-of-a-kind rank of a full house: the highest rank held three times or more. */
  function FullHouseTrips(rs: seq<int>): int {
    HighestHeld(rs, 3, 0)
  }

  /** The pair rank of a full house: the highest other rank held twice or more. */
  function FullHousePair(rs: seq<int>): int {
    HighestHeld(rs, 2, FullHouseTrips(rs))
  }

  /** Some rank is held three times and another rank twice. */
  predicate HasFullHouse(rs: seq<int>) {
    exists t, p :: 2 <= t <= 14 && 2 <= p <= 14 && t != p && Count(rs, t) >= 3 && Count(rs, p) >= 2
  }

  /** `checkFullHouse`: trips * 14 + pair, or 0 when either part is missing. */
  function CheckFullHouse(rs: seq<int>): (v: int)
    ensures v == 0 <==> !HasFullHouse(rs)
    ensures v != 0 ==> v == FullHouseTrips(rs) * 14 + FullHousePair(rs)
    ensures v != 0 ==> 2 <= FullHousePair(rs) <= 14 && 2 <= FullHouseTrips(rs) <= 14
    ensures v != 0 ==> FullHousePair(rs) != FullHouseTrips(rs)
  {
    var t := FullHouseTrips(rs);
    if t == 0 then
      assert !HasFullHouse(rs);
      0
    else
      var p := HighestHeld(rs, 2, t);
      if p == 0 then
        assert forall x :: 2 <= x <= 14 && x != t ==> Count(rs, x) < 2;
        assert forall x :: 2 <= x <= 14 && x != t ==> Count(rs, x) < 3;
        assert !HasFullHouse(rs);
        0
      else
        assert Count(rs, t) >= 3 && Count(rs, p) >= 2;
        t * 14 + p
  }

  /** The first suit from s on holding five cards or more, or -1. */
  function FlushSuitFrom(h: seq<Card>, s: int): (f: int)
    requires 0 <= s <= 4
    decreases 4 - s
    ensures f == -1 || (s <= f <= 3 && |SuitCards(h, f)| >= 5)
    ensures forall t: Suit :: s <= t && (f == -1 || t < f) ==> |SuitCards(h, t)| < 5
  {
    if s == 4 then -1
    else if |SuitCards(h, s)| >= 5 then s
    else FlushSuitFrom(h, s + 1)
  }

  /** The flush suit of `checkFlush`: the lowest-indexed suit holding five cards or more, or -1. */
  function FlushSuit(h: seq<Card>): int {
    FlushSuitFrom(h, 0)
  }

  /**
   * `checkFlush`: the plain sum of the five highest ranks of the flush
   * suit, or 0 when no suit holds five cards.
   */
  function CheckFlush(h: seq<Card>): (v: int)
    requires RankDescending(h)
    ensures v == 0 <==> forall t: Suit :: |SuitCards(h, t)| < 5
    ensures v != 0 ==> 0 <= FlushSuit(h) <= 3 && v == SumFirst(Ranks(SuitCards(h, FlushSuit(h))), 5)
    ensures v == 0 || 10 <= v <= 70
  {
    var f := FlushSuit(h);
    if f == -1 then 0
    else
      assert |SuitCards(h, f as Suit)| >= 5;
      SumFirst(Ranks(SuitCards(h, f)), 5)
  }

  /** A used-flag array with nothing marked. */
  function NoneUsed(n: nat): (u: seq<bool>)
    ensures |u| == n && forall k :: 0 <= k < n ==> !u[k]
  {
    seq(n, _ => false)
  }

  /** Occurrences of `rank` at positions i and later. */
  function CountFrom(rs: seq<int>, rank: int, i: nat): nat
    decreases |rs| - i
  {
    if i >= |rs| then 0 else (if rs[i] == rank then 1 else 0) + CountFrom(rs, rank, i + 1)
  }

  /** No occurrence counted from i means no position from i holds `rank`. */
  lemma {:induction false} CountFromZero(rs: seq<int>, rank: int, i: nat)
    decreases |rs| - i
    ensures CountFrom(rs, rank, i) == 0 ==> forall k :: i <= k < |rs| ==> rs[k] != rank
  {
    if i < |rs| {
      CountFromZero(rs, rank, i + 1);
    }
  }

  /**
   * The marking loops of the category checks: from position i, mark the
   * next `left` positions holding `rank`.
   */
  function MarkRank(rs: seq<int>, used: seq<bool>, rank: int, left: nat, i: nat): (u: seq<bool>)
    requires |used| == |rs|
    decreases |rs| - i
    ensures |u| == |rs|
    ensures forall k :: 0 <= k < |rs| && used[k] ==> u[k]
    ensures forall k :: 0 <= k < |rs| && u[k] && !used[k] ==> i <= k && rs[k] == rank
    ensures CountFrom(rs, rank, i) <= left ==>
              forall k :: i <= k < |rs| && rs[k] == rank ==> u[k]
  {
    if i >= |rs| then used
    else if left == 0 then
      CountFromZero(rs, rank, i);
      used
    else if rs[i] == rank then MarkRank(rs, used[i := true], rank, left - 1, i + 1)
    else MarkRank(rs, used, rank, left, i + 1)
  }

  /** The first unused position from i on, or -1. */
  function FirstUnused(used: seq<bool>, i: nat): (k: int)
    decreases |used| - i
    ensures k == -1 || (i <= k < |used| && !used[k])
    ensures forall j :: i <= j < |used| && (k == -1 || j < k) ==> used[j]
  {
    if i >= |used| then -1 else if !used[i] then i else FirstUnused(used, i + 1)
  }

  /**
   * `addHighestUnusedCard`: the rank at the first unused position, which
   * becomes used, or 0 when every position is used.
   */
  function AddHighestUnusedCard(rs: seq<int>, used: seq<bool>): (r: (int, seq<bool>))
    requires |used| == |rs| && InRange(rs)
    ensures |r.1| == |rs|
    ensures 0 <= r.0 <= 14
    ensures r.0 == 0 <==> forall k :: 0 <= k < |rs| ==> used[k]
    ensures r.0 != 0 ==>
              (exists k :: 0 <= k < |rs| && !used[k] && r.0 == rs[k] && r.1 == used[k := true] &&
                (forall j :: 0 <= j < k ==> used[j]))
  {
    var k := FirstUnused(used, 0);
    if k == -1 then (0, used) else (rs[k], used[k := true])
  }

  /** `checkThreeOfAKind`: the highest rank held three times or more, its first three cards marked. */
  function CheckThreeOfAKind(rs: seq<int>): (r: (int, seq<bool>))
    ensures |r.1| == |rs|
    ensures r.0 == 0 <==> forall x :: 2 <= x <= 14 ==> Count(rs, x) < 3
    ensures r.0 != 0 ==> 2 <= r.0 <= 14 && Count(rs, r.0) >= 3
    ensures r.0 != 0 ==> forall x :: r.0 < x <= 14 ==> Count(rs, x) < 3
  {
    var t := HighestHeld(rs, 3, 0);
    var none := NoneUsed(|rs|);
    if t == 0 then (0, none) else (t, MarkRank(rs, none, t, 3, 0))
  }

  /** The higher pair rank of a two pair. */
  function TwoPairHigh(rs: seq<int>): int {
    HighestHeld(rs, 2, 0)
  }

  /** The lower pair rank of a two pair: the highest other rank held twice or more. */
  function TwoPairLow(rs: seq<int>): int {
    HighestHeld(rs, 2, TwoPairHigh(rs))
  }

  /** Two different ranks are each held twice or more. */
  predicate HasTwoPair(rs: seq<int>) {
    exists a, b :: 2 <= a <= 14 && 2 <= b <= 14 && a != b && Count(rs, a) >= 2 && Count(rs, b) >= 2
  }

  /**
   * `checkTwoPair`: high * 14 + low from the two highest ranks held twice
   * or more, the first two cards of each marked; 0 with fewer than two.
   */
  function CheckTwoPair(rs: seq<int>): (r: (int, seq<bool>))
    ensures |r.1| == |rs|
    ensures r.0 == 0 <==> !HasTwoPair(rs)
    ensures r.0 != 0 ==> r.0 == TwoPairHigh(rs) * 14 + TwoPairLow(rs)
    ensures r.0 != 0 ==> 2 <= TwoPairLow(rs) < TwoPairHigh(rs) <= 14
  {
    var high := TwoPairHigh(rs);
    var low := HighestHeld(rs, 2, high);
    var none := NoneUsed(|rs|);
    if high == 0 || low == 0 then
      assert !HasTwoPair(rs);
      (0, none)
    else
      assert Count(rs, high) >= 2 && Count(rs, low) >= 2;
      (high * 14 + low, MarkRank(rs, MarkRank(rs, none, high, 2, 0), low, 2, 0))
  }

  /** `checkOnePair`: the highest rank held twice or more, its first two cards marked. */
  function CheckOnePair(rs: seq<int>): (r: (int, seq<bool>))
    ensures |r.1| == |rs|
    ensures r.0 == 0 <==> forall x :: 2 <= x <= 14 ==> Count(rs, x) < 2
    ensures r.0 != 0 ==> 2 <= r.0 <= 14 && Count(rs, r.0) >= 2
    ensures r.0 != 0 ==> forall x :: r.0 < x <= 14 ==> Count(rs, x) < 2
  {
    var p := HighestHeld(rs, 2, 0);
    var none := NoneUsed(|rs|);
    if p == 0 then (0, none) else (p, MarkRank(rs, none, p, 2, 0))
  }

  /**
   * `checkHighCard`: the plain sum of the (at most five) highest ranks. The
   * source re-sorts the list first; on the rank-descending list it is given
   * that sort changes nothing, so the first five entries are the highest.
   */
  function CheckHighCard(rs: seq<int>): (v: int)
    requires InRange(rs) && Descending(rs)
    ensures v == RankTotal(rs[..if |rs| < 5 then |rs| else 5])
    ensures 0 <= v <= 70
  {
    SumFirstIsTotal(rs, 5);
    SumFirst(rs, 5)
  }
}
