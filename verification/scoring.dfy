/**
 * How `evaluateHand` scores compare (src/HandEvaluator.java): a stronger
 * category always scores higher, and within a category the score orders
 * hands by the category's value first and its kickers second.
 */
module Scoring {
  import opened Cards
  import opened CardLists
  import opened Straights
  import opened Categories
  import opened Kickers
  import opened Evaluator

  /** A hand of a stronger category scores strictly higher, whatever the cards. */
  lemma StrongerCategoryScoresHigher(h1: seq<Card>, h2: seq<Card>)
    requires RankDescending(h1) && RankDescending(h2)
    requires Strength(CategoryOf(h1)) < Strength(CategoryOf(h2))
    ensures Analyse(h1).score < Analyse(h2).score
  {
    CategoryDominance(CategoryOf(h1), CategoryOf(h2));
  }

  /** Two full houses compare by their three-of-a-kind rank, then by their pair rank. */
  lemma FullHouseOrder(h1: seq<Card>, h2: seq<Card>)
    requires RankDescending(h1) && RankDescending(h2)
    requires CategoryOf(h1) == FullHouse && CategoryOf(h2) == FullHouse
    ensures var t1, p1 := FullHouseTrips(Ranks(h1)), FullHousePair(Ranks(h1));
            var t2, p2 := FullHouseTrips(Ranks(h2)), FullHousePair(Ranks(h2));
            Analyse(h1).score < Analyse(h2).score <==> t1 < t2 || (t1 == t2 && p1 < p2)
  {
    var e1, e2 := Analyse(h1), Analyse(h2);
    assert CheckFullHouse(Ranks(h1)) != 0 && CheckFullHouse(Ranks(h2)) != 0;
  }

  /** Two four of a kinds compare by the quad rank, then by the kicker. */
  lemma FourOfAKindOrder(h1: seq<Card>, h2: seq<Card>)
    requires RankDescending(h1) && RankDescending(h2)
    requires CategoryOf(h1) == FourOfAKind && CategoryOf(h2) == FourOfAKind
    ensures var q1, q2 := CheckFourOfAKind(Ranks(h1)), CheckFourOfAKind(Ranks(h2));
            var k1, k2 := KickerSum(Ranks(h1), {q1}, 1), KickerSum(Ranks(h2), {q2}, 1);
            Analyse(h1).score < Analyse(h2).score <==> q1 < q2 || (q1 == q2 && k1 < k2)
  {
    var e1, e2 := Analyse(h1), Analyse(h2);
    assert CheckStraightFlush(h1) == 0 && CheckStraightFlush(h2) == 0;
    assert CheckFourOfAKind(Ranks(h1)) != 0 && CheckFourOfAKind(Ranks(h2)) != 0;
  }

  /** Two straights compare by their top card; A-2-3-4-5 counts as five high. */
  lemma StraightOrder(h1: seq<Card>, h2: seq<Card>)
    requires RankDescending(h1) && RankDescending(h2)
    requires CategoryOf(h1) == Straight && CategoryOf(h2) == Straight
    ensures Analyse(h1).score < Analyse(h2).score <==> CheckStraight(Ranks(h1)) < CheckStraight(Ranks(h2))
  {
    var e1, e2 := Analyse(h1), Analyse(h2);
  }

  /** Two straight flushes compare by the value of their first qualifying suit. */
  lemma StraightFlushOrder(h1: seq<Card>, h2: seq<Card>)
    requires RankDescending(h1) && RankDescending(h2)
    requires CategoryOf(h1) == StraightFlush && CategoryOf(h2) == StraightFlush
    ensures Analyse(h1).score < Analyse(h2).score <==> CheckStraightFlush(h1) < CheckStraightFlush(h2)
  {
    var e1, e2 := Analyse(h1), Analyse(h2);
  }

  /** Two flushes compare by the plain sum of the five top ranks of the flush suit. */
  lemma FlushOrder(h1: seq<Card>, h2: seq<Card>)
    requires RankDescending(h1) && RankDescending(h2)
    requires CategoryOf(h1) == Flush && CategoryOf(h2) == Flush
    ensures Analyse(h1).score < Analyse(h2).score <==> CheckFlush(h1) < CheckFlush(h2)
  {
    var e1, e2 := Analyse(h1), Analyse(h2);
  }

  /** The score of a three of a kind held exactly three times, taken apart. */
  lemma ThreeOfAKindScore(h: seq<Card>)
    requires RankDescending(h) && CategoryOf(h) == ThreeOfAKind
    requires Count(Ranks(h), CheckThreeOfAKind(Ranks(h)).0) == 3
    ensures var t := CheckThreeOfAKind(Ranks(h)).0;
            var k := KickerSum(Ranks(h), {t}, 2);
            0 <= k <= 28 && Analyse(h).score == t * 100_0000 + k
  {
    var e := Analyse(h);
  }

  /**
   * Two three of a kinds, each held exactly three times, compare by the
   * trips rank, then by the sum of the two kickers.
   */
  lemma ThreeOfAKindOrder(h1: seq<Card>, h2: seq<Card>)
    requires RankDescending(h1) && RankDescending(h2)
    requires CategoryOf(h1) == ThreeOfAKind && CategoryOf(h2) == ThreeOfAKind
    requires Count(Ranks(h1), CheckThreeOfAKind(Ranks(h1)).0) == 3
    requires Count(Ranks(h2), CheckThreeOfAKind(Ranks(h2)).0) == 3
    ensures var t1, t2 := CheckThreeOfAKind(Ranks(h1)).0, CheckThreeOfAKind(Ranks(h2)).0;
            var k1, k2 := KickerSum(Ranks(h1), {t1}, 2), KickerSum(Ranks(h2), {t2}, 2);
            Analyse(h1).score < Analyse(h2).score <==> t1 < t2 || (t1 == t2 && k1 < k2)
  {
    ThreeOfAKindScore(h1);
    ThreeOfAKindScore(h2);
  }

  /** The score of a two pair, taken apart. */
  lemma TwoPairScore(h: seq<Card>)
    requires RankDescending(h) && CategoryOf(h) == TwoPair
    ensures var a, b := TwoPairHigh(Ranks(h)), TwoPairLow(Ranks(h));
            var k := KickerSum(Ranks(h), {a, b}, 1);
            0 <= k <= 14 && 2 <= b < a <= 14 && Analyse(h).score == (a * 14 + b) * 1000 + k
  {
    var e := Analyse(h);
    assert CheckTwoPair(Ranks(h)).0 != 0;
  }

  /** Two two pairs compare by the higher pair, then the lower pair, then the kicker. */
  lemma TwoPairOrder(h1: seq<Card>, h2: seq<Card>)
    requires RankDescending(h1) && RankDescending(h2)
    requires CategoryOf(h1) == TwoPair && CategoryOf(h2) == TwoPair
    ensures var a1, b1 := TwoPairHigh(Ranks(h1)), TwoPairLow(Ranks(h1));
            var a2, b2 := TwoPairHigh(Ranks(h2)), TwoPairLow(Ranks(h2));
            var k1, k2 := KickerSum(Ranks(h1), {a1, b1}, 1), KickerSum(Ranks(h2), {a2, b2}, 1);
            Analyse(h1).score < Analyse(h2).score <==>
              a1 < a2 || (a1 == a2 && b1 < b2) || (a1 == a2 && b1 == b2 && k1 < k2)
  {
    TwoPairScore(h1);
    TwoPairScore(h2);
  }

  /** Two one pairs compare by the pair rank, then by the sum of the three kickers. */
  lemma OnePairOrder(h1: seq<Card>, h2: seq<Card>)
    requires RankDescending(h1) && RankDescending(h2)
    requires CategoryOf(h1) == OnePair && CategoryOf(h2) == OnePair
    ensures var p1, p2 := CheckOnePair(Ranks(h1)).0, CheckOnePair(Ranks(h2)).0;
            var k1, k2 := KickerSum(Ranks(h1), {p1}, 3), KickerSum(Ranks(h2), {p2}, 3);
            Analyse(h1).score < Analyse(h2).score <==> p1 < p2 || (p1 == p2 && k1 < k2)
  {
    var e1, e2 := Analyse(h1), Analyse(h2);
    assert CheckOnePair(Ranks(h1)).0 != 0 && CheckOnePair(Ranks(h2)).0 != 0;
  }

  /** Every card of the hand is of suit s. */
  predicate AllOfSuit(h: seq<Card>, s: Suit) {
    forall k :: 0 <= k < |h| ==> h[k].suit == s
  }

  /** No rank occurs twice. */
  predicate DistinctRankList(rs: seq<int>) {
    forall i, j :: 0 <= i < j < |rs| ==> rs[i] != rs[j]
  }

  /** The ranks of suit t are the ranks of the cards of suit t. */
  lemma {:induction false} SuitRanksOfSuitCards(h: seq<Card>, t: Suit)
    ensures SuitRanks(h, t) == Ranks(SuitCards(h, t))
  {
    if |h| > 0 {
      SuitRanksOfSuitCards(h[1..], t);
    }
  }

  /** In a one-suit hand that suit holds every card and every other suit none. */
  lemma {:induction false} OneSuitCards(h: seq<Card>, s: Suit, t: Suit)
    requires AllOfSuit(h, s)
    ensures SuitCards(h, t) == if t == s then h else []
  {
    if |h| > 0 {
      assert AllOfSuit(h[1..], s) by {
        forall k | 0 <= k < |h[1..]| ensures h[1..][k].suit == s {
          assert h[1..][k] == h[k + 1];
        }
      }
      OneSuitCards(h[1..], s, t);
      assert h == [h[0]] + h[1..];
    }
  }

  /** A card of another suit keeps suit t from holding the whole hand. */
  lemma {:induction false} SuitCardsMissOne(h: seq<Card>, t: Suit, i: int)
    requires 0 <= i < |h| && h[i].suit != t
    ensures |SuitCards(h, t)| < |h|
  {
    if i > 0 {
      SuitCardsMissOne(h[1..], t, i - 1);
    } else {
      assert |SuitCards(h[1..], t)| <= |h[1..]|;
    }
  }

  /** With every rank different, every rank occurs at most once. */
  lemma {:induction false} DistinctCounts(rs: seq<int>)
    requires DistinctRankList(rs)
    ensures forall x :: Count(rs, x) <= 1
  {
    if |rs| > 0 {
      var t := rs[1..];
      assert DistinctRankList(t) by {
        forall i, j | 0 <= i < j < |t| ensures t[i] != t[j] {
          assert t[i] == rs[i + 1] && t[j] == rs[j + 1];
        }
      }
      DistinctCounts(t);
      assert rs == [rs[0]] + t;
      assert rs[0] !in t by {
        forall j | 0 <= j < |t| ensures t[j] != rs[0] {
          assert t[j] == rs[j + 1];
        }
      }
      assert multiset(rs) == multiset{rs[0]} + multiset(t);
      assert multiset(t)[rs[0]] == 0;
      forall x ensures Count(rs, x) <= 1 {
        assert Count(rs, x) == multiset{rs[0]}[x] + Count(t, x);
      }
    }
  }

  /** A hand whose ranks neither repeat nor run has none of the rank-based categories. */
  lemma NoRankCategory(rs: seq<int>)
    requires DistinctRankList(rs) && !ContainsRun(rs) && !HasWheel(rs)
    ensures !HasFourOfAKind(rs) && !HasFullHouse(rs) && !HasStraight(rs)
    ensures !HasThreeOfAKind(rs) && !HasTwoPair(rs) && !HasPair(rs)
  {
    DistinctCounts(rs);
  }

  /**
   * Five cards of one suit whose ranks neither repeat nor run: a flush,
   * valued at the plain sum of the five ranks.
   */
  lemma FlushCategory(h: seq<Card>, s: Suit)
    requires RankDescending(h) && |h| == 5 && AllOfSuit(h, s)
    requires DistinctRankList(Ranks(h)) && !ContainsRun(Ranks(h)) && !HasWheel(Ranks(h))
    ensures CategoryOf(h) == Flush
    ensures CheckFlush(h) == SumFirst(Ranks(h), 5)
  {
    NoRankCategory(Ranks(h));
    forall t: Suit ensures !SuitQualifies(h, t) {
      OneSuitCards(h, s, t);
      SuitRanksOfSuitCards(h, t);
    }
    OneSuitCards(h, s, s);
    assert HasFlush(h);
    OneSuitCards(h, s, FlushSuit(h));
  }

  /**
   * Cards of two different suits among five, with ranks that neither
   * repeat nor run: a high card hand, valued at the plain sum of the ranks.
   */
  lemma HighCardCategory(h: seq<Card>, i: int, j: int)
    requires RankDescending(h) && |h| == 5 && 0 <= i < 5 && 0 <= j < 5 && h[i].suit != h[j].suit
    requires DistinctRankList(Ranks(h)) && !ContainsRun(Ranks(h)) && !HasWheel(Ranks(h))
    ensures CategoryOf(h) == HighCard
    ensures Analyse(h).score == SumFirst(Ranks(h), 5)
  {
    NoRankCategory(Ranks(h));
    forall t: Suit ensures |SuitCards(h, t)| < 5 && !SuitQualifies(h, t) {
      if h[i].suit != t {
        SuitCardsMissOne(h, t, i);
      } else {
        SuitCardsMissOne(h, t, j);
      }
      SuitRanksOfSuitCards(h, t);
    }
    assert !HasFlush(h);
    assert !HasStraightFlush(h);
  }

  /** Five cards whose ranks never go up from one to the next are rank-descending. */
  lemma FiveDescending(h: seq<Card>)
    requires |h| == 5
    requires h[0].rank >= h[1].rank >= h[2].rank >= h[3].rank >= h[4].rank
    ensures RankDescending(h)
  {
  }

  /** The sum of the first five of five ranks is their plain sum. */
  lemma SumFive(rs: seq<int>)
    requires InRange(rs) && |rs| == 5
    ensures SumFirst(rs, 5) == rs[0] + rs[1] + rs[2] + rs[3] + rs[4]
  {
    assert rs[4..][1..] == [];
    assert SumFirst(rs[4..], 1) == rs[4];
    assert rs[3..][1..] == rs[4..];
    assert SumFirst(rs[3..], 2) == rs[3] + rs[4];
    assert rs[2..][1..] == rs[3..];
    assert SumFirst(rs[2..], 3) == rs[2] + rs[3] + rs[4];
    assert rs[1..][1..] == rs[2..];
    assert SumFirst(rs[1..], 4) == rs[1] + rs[2] + rs[3] + rs[4];
  }

  /** The ranks A-Q-T-8-6: all different, no run, no wheel, total 50. */
  lemma AceQueenRanks(rs: seq<int>)
    requires rs == [14, 12, 10, 8, 6]
    ensures InRange(rs) && DistinctRankList(rs) && !ContainsRun(rs) && !HasWheel(rs)
    ensures SumFirst(rs, 5) == 50
  {
    forall m | 0 <= m < 5 ensures !RunUp(rs, rs[m], 5) {
      assert rs[m] + 1 !in rs;
    }
    SumFive(rs);
  }

  /** The ranks K-Q-J-8-6: all different, no run, no wheel, total 50. */
  lemma KingQueenRanks(rs: seq<int>)
    requires rs == [13, 12, 11, 8, 6]
    ensures InRange(rs) && DistinctRankList(rs) && !ContainsRun(rs) && !HasWheel(rs)
    ensures SumFirst(rs, 5) == 50
  {
    forall m | 0 <= m < 5 ensures !RunUp(rs, rs[m], 5) {
      if m < 3 {
        assert 14 !in rs;
      } else {
        assert rs[m] + 1 !in rs;
      }
    }
    SumFive(rs);
  }

  /** A diamond flush A-Q-T-8-6: ranks sum to 50. */
  const AceFlush: seq<Card> :=
    [Card(14, 2, false), Card(12, 2, false), Card(10, 2, false), Card(8, 2, false), Card(6, 2, false)]

  /** A diamond flush K-Q-J-8-6: different ranks, the same sum of 50. */
  const KingFlush: seq<Card> :=
    [Card(13, 2, false), Card(12, 2, false), Card(11, 2, false), Card(8, 2, false), Card(6, 2, false)]

  /** The ace-high flush: rank-descending, a flush, valued 50. */
  lemma AceFlushFacts()
    ensures RankDescending(AceFlush)
    ensures CategoryOf(AceFlush) == Flush && CheckFlush(AceFlush) == 50 && Ranks(AceFlush)[0] == 14
  {
    FiveDescending(AceFlush);
    var a := Ranks(AceFlush);
    assert a == [14, 12, 10, 8, 6];
    AceQueenRanks(a);
    FlushCategory(AceFlush, 2);
  }

  /** The king-high flush: rank-descending, a flush, valued 50, no ace. */
  lemma KingFlushFacts()
    ensures RankDescending(KingFlush)
    ensures CategoryOf(KingFlush) == Flush && CheckFlush(KingFlush) == 50 && 14 !in Ranks(KingFlush)
  {
    FiveDescending(KingFlush);
    var k := Ranks(KingFlush);
    assert k == [13, 12, 11, 8, 6];
    KingQueenRanks(k);
    FlushCategory(KingFlush, 2);
  }

  /**
   * Flushes are not compared card by card: an ace-high and a king-high
   * flush whose ranks add up to the same total score the same.
   */
  lemma FlushTie()
    ensures RankDescending(AceFlush) && RankDescending(KingFlush)
    ensures CategoryOf(AceFlush) == Flush && CategoryOf(KingFlush) == Flush
    ensures multiset(Ranks(AceFlush)) != multiset(Ranks(KingFlush))
    ensures Analyse(AceFlush).score == Analyse(KingFlush).score
  {
    AceFlushFacts();
    KingFlushFacts();
    FlushOrder(AceFlush, KingFlush);
    FlushOrder(KingFlush, AceFlush);
    var a := Ranks(AceFlush);
    assert a[0] in multiset(a);
  }

  /** A-Q-T-8-6 of spades and hearts mixed: no pair, flush or straight. */
  const AceHigh: seq<Card> :=
    [Card(14, 0, false), Card(12, 1, false), Card(10, 0, false), Card(8, 1, false), Card(6, 0, false)]

  /** K-Q-J-8-6 of spades and hearts mixed: different ranks, the same sum of 50. */
  const KingHigh: seq<Card> :=
    [Card(13, 0, false), Card(12, 1, false), Card(11, 0, false), Card(8, 1, false), Card(6, 0, false)]

  /** The ace-high hand: rank-descending, a high card hand scoring 50. */
  lemma AceHighFacts()
    ensures RankDescending(AceHigh)
    ensures CategoryOf(AceHigh) == HighCard && Analyse(AceHigh).score == 50 && Ranks(AceHigh)[0] == 14
  {
    FiveDescending(AceHigh);
    var a := Ranks(AceHigh);
    assert a == [14, 12, 10, 8, 6];
    AceQueenRanks(a);
    HighCardCategory(AceHigh, 0, 1);
  }

  /** The king-high hand: rank-descending, a high card hand scoring 50, no ace. */
  lemma KingHighFacts()
    ensures RankDescending(KingHigh)
    ensures CategoryOf(KingHigh) == HighCard && Analyse(KingHigh).score == 50 && 14 !in Ranks(KingHigh)
  {
    FiveDescending(KingHigh);
    var k := Ranks(KingHigh);
    assert k == [13, 12, 11, 8, 6];
    KingQueenRanks(k);
    HighCardCategory(KingHigh, 0, 1);
  }

  /**
   * High card hands are not compared card by card either: ace-high and
   * king-high hands with the same rank total score the same.
   */
  lemma HighCardTie()
    ensures RankDescending(AceHigh) && RankDescending(KingHigh)
    ensures CategoryOf(AceHigh) == HighCard && CategoryOf(KingHigh) == HighCard
    ensures multiset(Ranks(AceHigh)) != multiset(Ranks(KingHigh))
    ensures Analyse(AceHigh).score == Analyse(KingHigh).score
  {
    AceHighFacts();
    KingHighFacts();
    var a := Ranks(AceHigh);
    assert a[0] in multiset(a);
  }
}
