/**
 * `evaluateHand` and `describeHand` of src/HandEvaluator.java: the checks
 * run from straight flush down to high card, the first one that fires
 * fixes the category, and its value is scaled by that category's unit so
 * that every score of a stronger category exceeds every score of a weaker one.
 */
module Evaluator {
  import opened Results
  import opened Cards
  import opened CardLists
  import opened Straights
  import opened Categories
  import opened Kickers

  datatype Category =
    | HighCard | OnePair | TwoPair | ThreeOfAKind | Straight
    | Flush | FullHouse | FourOfAKind | StraightFlush

  /** Position of the category in the ranking, weakest first. */
  function Strength(c: Category): nat {
    match c
    case HighCard => 0
    case OnePair => 1
    case TwoPair => 2
    case ThreeOfAKind => 3
    case Straight => 4
    case Flush => 5
    case FullHouse => 6
    case FourOfAKind => 7
    case StraightFlush => 8
  }

  /** The text `describeHand` gives for the category. */
  function Name(c: Category): string {
    match c
    case HighCard => "High Card"
    case OnePair => "One Pair"
    case TwoPair => "Two Pair"
    case ThreeOfAKind => "Three of a Kind"
    case Straight => "Straight"
    case Flush => "Flush"
    case FullHouse => "Full House"
    case FourOfAKind => "Four of a Kind"
    case StraightFlush => "Straight Flush"
  }

  /** The largest Java `long`. */
  const MaxLong: int := 0x7FFF_FFFF_FFFF_FFFF

  /** The lowest score a hand of the category can get. */
  function Floor(c: Category): int {
    match c
    case HighCard => 0
    case OnePair => 2 * 100
    case TwoPair => (3 * 14 + 2) * 1000
    case ThreeOfAKind => 2 * 100_0000
    case Straight => 5 * 1_0000_0000
    case Flush => 10 * 100_0000_0000
    case FullHouse => (2 * 14 + 3) * 1000_0000_0000
    case FourOfAKind => 2 * 100_0000_0000_0000
    case StraightFlush => 1 * 1_0000_0000_0000_0000
  }

  /** The highest score a hand of the category can get. */
  function Ceiling(c: Category): int {
    match c
    case HighCard => 70
    case OnePair => 14 * 100 + 42
    case TwoPair => (14 * 14 + 13) * 1000 + 14
    case ThreeOfAKind => 14 * 100_0000 + 28
    case Straight => 14 * 1_0000_0000
    case Flush => 70 * 100_0000_0000
    case FullHouse => (14 * 14 + 13) * 1000_0000_0000
    case FourOfAKind => 14 * 100_0000_0000_0000 + 14
    case StraightFlush => 10 * 1_0000_0000_0000_0000
  }

  /** Every score of a stronger category is above every score of a weaker one. */
  lemma CategoryDominance(a: Category, b: Category)
    requires Strength(a) < Strength(b)
    ensures Ceiling(a) < Floor(b)
  {
  }

  /** The strongest category among those present, in the ranking order of `evaluateHand`. */
  function Classify(straightFlush: bool, four: bool, fullHouse: bool, flush: bool, straight: bool,
                    three: bool, twoPair: bool, pair: bool): Category
  {
    if straightFlush then StraightFlush
    else if four then FourOfAKind
    else if fullHouse then FullHouse
    else if flush then Flush
    else if straight then Straight
    else if three then ThreeOfAKind
    else if twoPair then TwoPair
    else if pair then OnePair
    else HighCard
  }

  /** Some suit holds five consecutive ranks or A-2-3-4-5. */
  ghost predicate HasStraightFlush(h: seq<Card>) {
    exists t: Suit :: SuitQualifies(h, t)
  }

  /** Some rank is held exactly four times. */
  ghost predicate HasFourOfAKind(rs: seq<int>) {
    exists x :: 2 <= x <= 14 && Count(rs, x) == 4
  }

  /** Some suit holds five cards or more. */
  ghost predicate HasFlush(h: seq<Card>) {
    exists t: Suit :: |SuitCards(h, t)| >= 5
  }

  /** Five consecutive ranks, or A-2-3-4-5, are present. */
  ghost predicate HasStraight(rs: seq<int>) {
    ContainsRun(rs) || HasWheel(rs)
  }

  /** Some rank is held three times or more. */
  ghost predicate HasThreeOfAKind(rs: seq<int>) {
    exists x :: 2 <= x <= 14 && Count(rs, x) >= 3
  }

  /** Some rank is held twice or more. */
  ghost predicate HasPair(rs: seq<int>) {
    exists x :: 2 <= x <= 14 && Count(rs, x) >= 2
  }

  /** The category of a hand, read off its rank counts and suits directly. */
  ghost function CategoryOf(h: seq<Card>): Category {
    var rs := Ranks(h);
    Classify(HasStraightFlush(h), HasFourOfAKind(rs), HasFullHouse(rs), HasFlush(h), HasStraight(rs),
             HasThreeOfAKind(rs), HasTwoPair(rs), HasPair(rs))
  }

  datatype Evaluation = Evaluation(category: Category, score: int)

  /** The sum of the n highest ranks outside `made`: the kickers. */
  function KickerSum(rs: seq<int>, made: set<int>, n: nat): int
    requires InRange(rs)
  {
    SumFirst(Without(rs, made), n)
  }

  /** The kickers drawn after marking every card of `rank` (and nothing else). */
  lemma DrawAfterMarking(rs: seq<int>, rank: int, left: nat, n: nat)
    requires InRange(rs) && Count(rs, rank) <= left
    ensures Draw(rs, MarkRank(rs, NoneUsed(|rs|), rank, left, 0), n).0 == KickerSum(rs, {rank}, n)
  {
    var none := NoneUsed(|rs|);
    MarkRankExact(rs, none, rank, left, {});
    assert {} + {rank} == {rank};
    UnusedIsWithout(rs, MarkRank(rs, none, rank, left, 0), {rank}, 0);
    assert rs[0..] == rs;
  }

  /** The kicker drawn after marking both pairs of a two pair. */
  lemma DrawAfterTwoPairs(rs: seq<int>, high: int, low: int)
    requires InRange(rs) && Count(rs, high) <= 2 && Count(rs, low) <= 2
    ensures Draw(rs, MarkRank(rs, MarkRank(rs, NoneUsed(|rs|), high, 2, 0), low, 2, 0), 1).0
              == KickerSum(rs, {high, low}, 1)
  {
    var none := NoneUsed(|rs|);
    MarkRankExact(rs, none, high, 2, {});
    assert {} + {high} == {high};
    var u := MarkRank(rs, none, high, 2, 0);
    MarkRankExact(rs, u, low, 2, {high});
    assert {high} + {low} == {high, low};
    UnusedIsWithout(rs, MarkRank(rs, u, low, 2, 0), {high, low}, 0);
    assert rs[0..] == rs;
  }

  /** The category of the first check of `evaluateHand` that fires. */
  function ChainCategory(h: seq<Card>): Category
    requires RankDescending(h)
  {
    var rs := Ranks(h);
    Classify(CheckStraightFlush(h) != 0, CheckFourOfAKind(rs) != 0, CheckFullHouse(rs) != 0,
             CheckFlush(h) != 0, CheckStraight(rs) != 0, CheckThreeOfAKind(rs).0 != 0,
             CheckTwoPair(rs).0 != 0, CheckOnePair(rs).0 != 0)
  }

  /**
   * The check chain classifies a hand exactly as the rank counts and suits
   * say it should.
   */
  lemma ChainIsCategoryOf(h: seq<Card>)
    requires RankDescending(h)
    ensures ChainCategory(h) == CategoryOf(h)
  {
    var rs := Ranks(h);
    CheckStraightFlushSuits(h);
    assert (CheckStraightFlush(h) != 0) == HasStraightFlush(h);
    assert (CheckFourOfAKind(rs) != 0) == HasFourOfAKind(rs);
    assert (CheckFullHouse(rs) != 0) == HasFullHouse(rs);
    assert (CheckFlush(h) != 0) == HasFlush(h);
    assert (CheckStraight(rs) != 0) == HasStraight(rs);
    assert (CheckThreeOfAKind(rs).0 != 0) == HasThreeOfAKind(rs);
    assert (CheckTwoPair(rs).0 != 0) == HasTwoPair(rs);
    assert (CheckOnePair(rs).0 != 0) == HasPair(rs);
  }

  /**
   * What a score means for its category: it lies in the category's band,
   * and it is made of the category's value and, where the category has
   * them, its kickers.
   */
  ghost predicate ScoreMeaning(h: seq<Card>, e: Evaluation)
    requires RankDescending(h)
  {
    && Floor(e.category) <= e.score <= Ceiling(e.category)
    && Composed(h, e.category, e.score)
  }

  /** How a score of category c is made from the hand's category value and kickers. */
  ghost predicate Composed(h: seq<Card>, c: Category, score: int)
    requires RankDescending(h)
  {
    var rs := Ranks(h);
    match c
    case StraightFlush => score == CheckStraightFlush(h) * 1_0000_0000_0000_0000
    case FourOfAKind =>
      score == CheckFourOfAKind(rs) * 100_0000_0000_0000 + KickerSum(rs, {CheckFourOfAKind(rs)}, 1)
    case FullHouse => score == (FullHouseTrips(rs) * 14 + FullHousePair(rs)) * 1000_0000_0000
    case Flush => score == CheckFlush(h) * 100_0000_0000
    case Straight => score == CheckStraight(rs) * 1_0000_0000
    case ThreeOfAKind =>
      Count(rs, CheckThreeOfAKind(rs).0) == 3 ==>
        score == CheckThreeOfAKind(rs).0 * 100_0000 + KickerSum(rs, {CheckThreeOfAKind(rs).0}, 2)
    case TwoPair =>
      score == (TwoPairHigh(rs) * 14 + TwoPairLow(rs)) * 1000 + KickerSum(rs, {TwoPairHigh(rs), TwoPairLow(rs)}, 1)
    case OnePair => score == CheckOnePair(rs).0 * 100 + KickerSum(rs, {CheckOnePair(rs).0}, 3)
    case HighCard => score == SumFirst(rs, 5)
  }

  /** A category value scaled by its multiplier, plus kickers, stays between the scaled bounds. */
  lemma ScaleBand(v: int, lo: int, hi: int, m: nat, k: int, kmax: int)
    requires lo <= v <= hi && 0 <= k <= kmax
    ensures lo * m <= v * m + k <= hi * m + kmax
  {
    assert (v - lo) * m >= 0 && (hi - v) * m >= 0;
  }

  /** The checks above three of a kind all came back 0. */
  predicate NoneAboveTrips(h: seq<Card>)
    requires RankDescending(h)
  {
    var rs := Ranks(h);
    CheckStraightFlush(h) == 0 && CheckFourOfAKind(rs) == 0 && CheckFullHouse(rs) == 0
    && CheckFlush(h) == 0 && CheckStraight(rs) == 0
  }

  lemma StraightFlushMeaning(h: seq<Card>)
    requires RankDescending(h) && CheckStraightFlush(h) > 0
    ensures ScoreMeaning(h, Evaluation(StraightFlush, CheckStraightFlush(h) * 1_0000_0000_0000_0000))
  {
    var e := Evaluation(StraightFlush, CheckStraightFlush(h) * 1_0000_0000_0000_0000);
    ScaleBand(CheckStraightFlush(h), 1, 10, 1_0000_0000_0000_0000, 0, 0);
    assert Floor(StraightFlush) == 1_0000_0000_0000_0000 && Ceiling(StraightFlush) == 10_0000_0000_0000_0000;
  }

  lemma FourMeaning(h: seq<Card>, kicker: int)
    requires RankDescending(h) && CheckFourOfAKind(Ranks(h)) > 0
    requires kicker == KickerSum(Ranks(h), {CheckFourOfAKind(Ranks(h))}, 1)
    ensures ScoreMeaning(h, Evaluation(FourOfAKind, CheckFourOfAKind(Ranks(h)) * 100_0000_0000_0000 + kicker))
  {
    var e := Evaluation(FourOfAKind, CheckFourOfAKind(Ranks(h)) * 100_0000_0000_0000 + kicker);
    ScaleBand(CheckFourOfAKind(Ranks(h)), 2, 14, 100_0000_0000_0000, kicker, 14);
    assert Floor(e.category) <= e.score <= Ceiling(e.category);
  }

  lemma FullHouseMeaning(h: seq<Card>)
    requires RankDescending(h) && CheckFullHouse(Ranks(h)) > 0
    ensures ScoreMeaning(h, Evaluation(FullHouse, CheckFullHouse(Ranks(h)) * 1000_0000_0000))
  {
    var rs := Ranks(h);
    var e := Evaluation(FullHouse, CheckFullHouse(rs) * 1000_0000_0000);
    ScaleBand(CheckFullHouse(rs), 2 * 14 + 3, 14 * 14 + 13, 1000_0000_0000, 0, 0);
    assert Floor(e.category) <= e.score <= Ceiling(e.category);
    assert e.score == (FullHouseTrips(rs) * 14 + FullHousePair(rs)) * 1000_0000_0000;
  }

  lemma FlushMeaning(h: seq<Card>)
    requires RankDescending(h) && CheckFlush(h) > 0
    ensures ScoreMeaning(h, Evaluation(Flush, CheckFlush(h) * 100_0000_0000))
  {
    var e := Evaluation(Flush, CheckFlush(h) * 100_0000_0000);
    ScaleBand(CheckFlush(h), 10, 70, 100_0000_0000, 0, 0);
    assert Floor(e.category) <= e.score <= Ceiling(e.category);
  }

  lemma StraightMeaning(h: seq<Card>)
    requires RankDescending(h) && CheckStraight(Ranks(h)) > 0
    ensures ScoreMeaning(h, Evaluation(Straight, CheckStraight(Ranks(h)) * 1_0000_0000))
  {
    var e := Evaluation(Straight, CheckStraight(Ranks(h)) * 1_0000_0000);
    ScaleBand(CheckStraight(Ranks(h)), 5, 14, 1_0000_0000, 0, 0);
    assert Floor(e.category) <= e.score <= Ceiling(e.category);
  }

  lemma TripsMeaning(h: seq<Card>, kickers: int)
    requires RankDescending(h) && CheckThreeOfAKind(Ranks(h)).0 > 0
    requires 0 <= kickers <= 28
    requires Count(Ranks(h), CheckThreeOfAKind(Ranks(h)).0) == 3 ==>
               kickers == KickerSum(Ranks(h), {CheckThreeOfAKind(Ranks(h)).0}, 2)
    ensures ScoreMeaning(h, Evaluation(ThreeOfAKind, CheckThreeOfAKind(Ranks(h)).0 * 100_0000 + kickers))
  {
    var e := Evaluation(ThreeOfAKind, CheckThreeOfAKind(Ranks(h)).0 * 100_0000 + kickers);
    ScaleBand(CheckThreeOfAKind(Ranks(h)).0, 2, 14, 100_0000, kickers, 28);
    assert Floor(e.category) <= e.score <= Ceiling(e.category);
  }

  lemma TwoPairMeaning(h: seq<Card>, kicker: int)
    requires RankDescending(h) && CheckTwoPair(Ranks(h)).0 > 0
    requires kicker == KickerSum(Ranks(h), {TwoPairHigh(Ranks(h)), TwoPairLow(Ranks(h))}, 1)
    ensures ScoreMeaning(h, Evaluation(TwoPair, CheckTwoPair(Ranks(h)).0 * 1000 + kicker))
  {
    var e := Evaluation(TwoPair, CheckTwoPair(Ranks(h)).0 * 1000 + kicker);
    ScaleBand(CheckTwoPair(Ranks(h)).0, 3 * 14 + 2, 14 * 14 + 13, 1000, kicker, 14);
    assert Floor(e.category) <= e.score <= Ceiling(e.category);
  }

  lemma OnePairMeaning(h: seq<Card>, kickers: int)
    requires RankDescending(h) && CheckOnePair(Ranks(h)).0 > 0
    requires kickers == KickerSum(Ranks(h), {CheckOnePair(Ranks(h)).0}, 3)
    ensures ScoreMeaning(h, Evaluation(OnePair, CheckOnePair(Ranks(h)).0 * 100 + kickers))
  {
    var e := Evaluation(OnePair, CheckOnePair(Ranks(h)).0 * 100 + kickers);
    ScaleBand(CheckOnePair(Ranks(h)).0, 2, 14, 100, kickers, 42);
    assert Floor(e.category) <= e.score <= Ceiling(e.category);
  }

  lemma HighCardMeaning(h: seq<Card>)
    requires RankDescending(h)
    ensures ScoreMeaning(h, Evaluation(HighCard, CheckHighCard(Ranks(h))))
  {
    var e := Evaluation(HighCard, CheckHighCard(Ranks(h)));
    assert Floor(e.category) <= e.score <= Ceiling(e.category);
  }

  /** `evaluateHand` from the three-of-a-kind check down. */
  function FromTrips(h: seq<Card>): (e: Evaluation)
    requires RankDescending(h) && NoneAboveTrips(h)
    ensures e.category == ChainCategory(h)
    ensures ScoreMeaning(h, e)
  {
    var rs := Ranks(h);
    var (t, tmarks) := CheckThreeOfAKind(rs);
    if t > 0 then
      assert Count(rs, t) == 3 ==> Draw(rs, tmarks, 2).0 == KickerSum(rs, {t}, 2) by {
        if Count(rs, t) == 3 { DrawAfterMarking(rs, t, 3, 2); }
      }
      TripsMeaning(h, Draw(rs, tmarks, 2).0);
      Evaluation(ThreeOfAKind, t * 100_0000 + Draw(rs, tmarks, 2).0)
    else
      var (tp, pmarks) := CheckTwoPair(rs);
      if tp > 0 then
        DrawAfterTwoPairs(rs, TwoPairHigh(rs), TwoPairLow(rs));
        TwoPairMeaning(h, Draw(rs, pmarks, 1).0);
        Evaluation(TwoPair, tp * 1000 + Draw(rs, pmarks, 1).0)
      else
        var (p, omarks) := CheckOnePair(rs);
        if p > 0 then
          DrawAfterMarking(rs, p, 2, 3);
          OnePairMeaning(h, Draw(rs, omarks, 3).0);
          Evaluation(OnePair, p * 100 + Draw(rs, omarks, 3).0)
        else
          HighCardMeaning(h);
          Evaluation(HighCard, CheckHighCard(rs))
  }

  /** `evaluateHand` from the full-house check down. */
  function FromFullHouse(h: seq<Card>): (e: Evaluation)
    requires RankDescending(h) && CheckStraightFlush(h) == 0 && CheckFourOfAKind(Ranks(h)) == 0
    ensures e.category == ChainCategory(h)
    ensures ScoreMeaning(h, e)
  {
    var rs := Ranks(h);
    var fh := CheckFullHouse(rs);
    if fh > 0 then
      FullHouseMeaning(h);
      Evaluation(FullHouse, fh * 1000_0000_0000)
    else
      var fl := CheckFlush(h);
      if fl > 0 then
        FlushMeaning(h);
        Evaluation(Flush, fl * 100_0000_0000)
      else
        var st := CheckStraight(rs);
        if st > 0 then
          StraightMeaning(h);
          Evaluation(Straight, st * 1_0000_0000)
        else FromTrips(h)
  }

  /**
   * The check chain of `evaluateHand` on the rank-descending hand: the
   * category is the one the rank counts and suits call for, and the score
   * means what `ScoreMeaning` says.
   */
  function Analyse(h: seq<Card>): (e: Evaluation)
    requires RankDescending(h)
    ensures ScoreMeaning(h, e)
    ensures e.category == CategoryOf(h)
  {
    ChainIsCategoryOf(h);
    var rs := Ranks(h);
    var sf := CheckStraightFlush(h);
    if sf > 0 then
      StraightFlushMeaning(h);
      Evaluation(StraightFlush, sf * 1_0000_0000_0000_0000)
    else
      var q := CheckFourOfAKind(rs);
      if q > 0 then
        var marks := MarkRank(rs, NoneUsed(|rs|), q, |rs|, 0);
        assert Count(rs, q) <= |rs|;
        DrawAfterMarking(rs, q, |rs|, 1);
        FourMeaning(h, Draw(rs, marks, 1).0);
        Evaluation(FourOfAKind, q * 100_0000_0000_0000 + Draw(rs, marks, 1).0)
      else FromFullHouse(h)
  }

  /** The cards that are there: `evaluateHand` skips null entries of the hand and the board. */
  function Present(cs: seq<Option<Card>>): (r: seq<Card>)
    ensures |r| <= |cs|
    ensures forall c :: c in r <==> Some(c) in cs
  {
    if |cs| == 0 then []
    else
      var rest := Present(cs[1..]);
      assert forall o :: o in cs <==> o == cs[0] || o in cs[1..];
      match cs[0]
      case None => rest
      case Some(c) => [c] + rest
  }

  /** The hole cards and the board, nulls dropped, sorted by descending rank. */
  function Combined(hole: seq<Option<Card>>, board: seq<Option<Card>>): (h: seq<Card>)
    ensures RankDescending(h)
    ensures multiset(h) == multiset(Present(hole) + Present(board))
  {
    SortByRank(Present(hole) + Present(board))
  }

  /**
   * `evaluateHand`: the score of the hole cards together with the board.
   * It is never negative and fits a Java `long`, and `describeHand` names
   * exactly the category the cards' counts and suits call for.
   */
  function EvaluateHand(hole: seq<Option<Card>>, board: seq<Option<Card>>): (score: int)
    ensures 0 <= score <= MaxLong
    ensures ScoreMeaning(Combined(hole, board), Evaluation(CategoryOf(Combined(hole, board)), score))
    ensures DescribeHand(score) == Name(CategoryOf(Combined(hole, board)))
  {
    var h := Combined(hole, board);
    var e := Analyse(h);
    assert e == Evaluation(CategoryOf(h), e.score);
    DescribeInBand(e.category, e.score);
    BandFitsLong(e.category);
    e.score
  }

  /** `describeHand`: the category name for a score, by threshold. */
  function DescribeHand(score: int): string {
    if score >= 1_0000_0000_0000_0000 then "Straight Flush"
    else if score >= 100_0000_0000_0000 then "Four of a Kind"
    else if score >= 1_0000_0000_0000 then "Full House"
    else if score >= 100_0000_0000 then "Flush"
    else if score >= 1_0000_0000 then "Straight"
    else if score >= 100_0000 then "Three of a Kind"
    else if score >= 1_0000 then "Two Pair"
    else if score > 100 then "One Pair"
    else "High Card"
  }

  /** Every band lies between 0 and the largest Java `long`. */
  lemma BandFitsLong(c: Category)
    ensures 0 <= Floor(c) && Ceiling(c) <= MaxLong
  {
  }

  /** Every score in a category's band is described by that category's name. */
  lemma DescribeInBand(c: Category, score: int)
    requires Floor(c) <= score <= Ceiling(c)
    ensures DescribeHand(score) == Name(c)
  {
  }
}
