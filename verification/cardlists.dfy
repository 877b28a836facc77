/**
 * Card lists as the evaluator sees them (src/HandEvaluator.java): the
 * rank-descending sort of `evaluateHand`, per-suit filtering, the rank
 * counts of `countRanks`, and the searches the category checks run over them.
 */
module CardLists {
  import opened Cards

  /** Every entry is a card rank. */
  predicate InRange(rs: seq<int>) {
    forall k :: 0 <= k < |rs| ==> 2 <= rs[k] <= 14
  }

  /** Non-increasing order. */
  predicate Descending(rs: seq<int>) {
    forall i, j :: 0 <= i < j < |rs| ==> rs[i] >= rs[j]
  }

  /** The cards are in non-increasing rank order. */
  predicate RankDescending(h: seq<Card>) {
    forall i, j :: 0 <= i < j < |h| ==> h[i].rank >= h[j].rank
  }

  /** The ranks of a card list, position by position. */
  function Ranks(h: seq<Card>): (rs: seq<int>)
    ensures |rs| == |h| && InRange(rs)
    ensures forall k :: 0 <= k < |h| ==> rs[k] == h[k].rank
    ensures RankDescending(h) ==> Descending(rs)
  {
    seq(|h|, k requires 0 <= k < |h| => h[k].rank)
  }

  /** How often rank `x` occurs. */
  function Count(rs: seq<int>, x: int): nat {
    multiset(rs)[x]
  }

  /** Places `c` before the first card of rank at most its own, so equal ranks keep their order. */
  function InsertByRank(c: Card, h: seq<Card>): (r: seq<Card>)
    requires RankDescending(h)
    ensures RankDescending(r)
    ensures multiset(r) == multiset(h) + multiset{c}
    ensures |r| == |h| + 1
    ensures forall k :: 0 <= k < |r| ==> r[k] == c || r[k] in h
  {
    if |h| == 0 || c.rank >= h[0].rank then
      InsertFront(c, h);
      [c] + h
    else
      var t := InsertByRank(c, h[1..]);
      InsertBehind(c, h, t);
      [h[0]] + t
  }

  /** Putting a card of rank at least the first one's in front keeps the order. */
  lemma InsertFront(c: Card, h: seq<Card>)
    requires RankDescending(h) && (|h| == 0 || c.rank >= h[0].rank)
    ensures RankDescending([c] + h)
  {
    var r := [c] + h;
    forall i, j | 0 <= i < j < |r| ensures r[i].rank >= r[j].rank {
      if i == 0 && j > 1 {
        assert r[j] == h[j - 1] && h[0].rank >= h[j - 1].rank;
      }
    }
  }

  /** The recursive case: the first card stays in front of the insertion into the rest. */
  lemma InsertBehind(c: Card, h: seq<Card>, t: seq<Card>)
    requires RankDescending(h) && |h| > 0 && c.rank < h[0].rank
    requires RankDescending(t) && multiset(t) == multiset(h[1..]) + multiset{c}
    requires forall k :: 0 <= k < |t| ==> t[k] == c || t[k] in h[1..]
    ensures RankDescending([h[0]] + t)
    ensures multiset([h[0]] + t) == multiset(h) + multiset{c}
    ensures forall k :: 0 <= k < |[h[0]] + t| ==> ([h[0]] + t)[k] == c || ([h[0]] + t)[k] in h
  {
    assert h == [h[0]] + h[1..];
    var r := [h[0]] + t;
    forall k | 0 <= k < |t| ensures t[k].rank <= h[0].rank {
      if t[k] != c {
        var j :| 0 <= j < |h[1..]| && h[1..][j] == t[k];
        assert h[j + 1] == t[k];
      }
    }
    forall i, j | 0 <= i < j < |r| ensures r[i].rank >= r[j].rank {
      if i > 0 {
        assert r[i] == t[i - 1] && r[j] == t[j - 1];
      } else {
        assert r[j] == t[j - 1];
      }
    }
  }

  /** The stable descending sort by rank that `evaluateHand` applies first. */
  function SortByRank(cards: seq<Card>): (h: seq<Card>)
    ensures RankDescending(h)
    ensures multiset(h) == multiset(cards)
    ensures |h| == |cards|
  {
    if |cards| == 0 then []
    else
      assert cards == [cards[0]] + cards[1..];
      InsertByRank(cards[0], SortByRank(cards[1..]))
  }

  /** The cards of one suit, in their original order. */
  function SuitCards(h: seq<Card>, s: Suit): (r: seq<Card>)
    ensures |r| <= |h|
    ensures forall k :: 0 <= k < |r| ==> r[k].suit == s
    ensures RankDescending(h) ==> RankDescending(r)
    ensures RankDescending(h) && |h| > 0 ==> forall k :: 0 <= k < |r| ==> r[k].rank <= h[0].rank
  {
    if |h| == 0 then []
    else (if h[0].suit == s then [h[0]] else []) + SuitCards(h[1..], s)
  }

  /** `SuitCards` keeps exactly the cards of suit s. */
  lemma {:induction false} SuitCardsMembers(h: seq<Card>, s: Suit)
    ensures forall c :: c in SuitCards(h, s) <==> c in h && c.suit == s
  {
    if |h| > 0 {
      SuitCardsMembers(h[1..], s);
      assert h == [h[0]] + h[1..];
    }
  }

  /** `countRanks`: a map from each rank present to its number of occurrences. */
  function CountRanks(rs: seq<int>): (m: map<int, nat>)
    ensures forall x :: x in m <==> x in rs
    ensures forall x :: x in m ==> m[x] == Count(rs, x)
  {
    if |rs| == 0 then map[]
    else
      var m := CountRanks(rs[..|rs| - 1]);
      var r := rs[|rs| - 1];
      assert rs == rs[..|rs| - 1] + [r];
      m[r := (if r in m then m[r] else 0) + 1]
  }

  /**
   * The "keep the largest qualifying key" scan over the count map: the
   * highest rank at or below `from`, other than `exclude`, held at least
   * `atLeast` times, or 0 when there is none.
   */
  function HighestWithCount(m: map<int, nat>, atLeast: nat, exclude: int, from: int): (b: int)
    decreases from
    ensures b == 0 || (2 <= b <= from && b != exclude && b in m && m[b] >= atLeast)
    ensures forall x :: 2 <= x <= from && x > b && x != exclude && x in m ==> m[x] < atLeast
  {
    if from < 2 then 0
    else if from != exclude && from in m && m[from] >= atLeast then from
    else HighestWithCount(m, atLeast, exclude, from - 1)
  }

  /**
   * The "return the first matching entry" scan over the count map. A Java
   * HashMap with Integer keys 2..14 iterates them in ascending order, so this
   * is the lowest rank from `from` up held exactly `times` times, or 0.
   */
  function LowestWithCount(m: map<int, nat>, times: nat, from: int): (b: int)
    requires from >= 2
    decreases 15 - from
    ensures b == 0 || (from <= b <= 14 && b in m && m[b] == times)
    ensures forall x :: from <= x <= 14 && (b == 0 || x < b) && x in m ==> m[x] != times
  {
    if from > 14 then 0
    else if from in m && m[from] == times then from
    else LowestWithCount(m, times, from + 1)
  }

  /** The sum of the first `n` entries (all of them when there are fewer). */
  function SumFirst(rs: seq<int>, n: nat): (t: int)
    requires InRange(rs)
    ensures var k := if n < |rs| then n else |rs|; 2 * k <= t <= 14 * k
  {
    if n == 0 || |rs| == 0 then 0 else rs[0] + SumFirst(rs[1..], n - 1)
  }

  /** The plain total of a list of ranks, added up from the last entry back. */
  function RankTotal(rs: seq<int>): int {
    if |rs| == 0 then 0 else RankTotal(rs[..|rs| - 1]) + rs[|rs| - 1]
  }

  /** Putting a rank in front adds it to the total. */
  lemma {:induction false} RankTotalCons(x: int, rs: seq<int>)
    ensures RankTotal([x] + rs) == x + RankTotal(rs)
    decreases |rs|
  {
    if |rs| > 0 {
      var all := [x] + rs;
      assert all[..|all| - 1] == [x] + rs[..|rs| - 1];
      RankTotalCons(x, rs[..|rs| - 1]);
    }
  }

  /** `SumFirst` is the total of the first n entries (all of them when there are fewer). */
  lemma {:induction false} SumFirstIsTotal(rs: seq<int>, n: nat)
    requires InRange(rs)
    ensures SumFirst(rs, n) == RankTotal(rs[..if n < |rs| then n else |rs|])
  {
    if n == 0 || |rs| == 0 {
      assert rs[..0] == [];
    } else {
      var k := if n < |rs| then n else |rs|;
      SumFirstIsTotal(rs[1..], n - 1);
      assert rs[..k] == [rs[0]] + rs[1..][..k - 1];
      RankTotalCons(rs[0], rs[1..][..k - 1]);
    }
  }
}
