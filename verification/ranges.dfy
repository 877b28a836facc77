/**
 * Range codes of src/Game.java: the 13x13 table of shorthand hands
 * ("AKs", "T9o", "77"), the rank character decoder, and the parser that
 * deals a concrete two-card hand for a code from the game's deck.
 */
module Ranges {
  import opened Results
  import opened Cards
  import opened Players
  import opened Games

  /**
   * `getRankFromChar`: '2'..'9' are their digit, T, J, Q, K, A are
   * 10..14, anything else is an IllegalArgumentException naming the
   * character. Exactly the rank characters of `Card.toString` decode,
   * each back to its own rank.
   */
  function GetRankFromChar(c: char): (r: Result<Rank>)
    ensures r.Ok? <==> c in RankChars
    ensures r.Ok? ==> RankChars[r.value - 2] == c
    ensures r.Err? ==> r.error == IllegalArgument("Invalid rank character: " + [c])
  {
    if '2' <= c <= '9' then Ok((c as int) - ('0' as int))
    else
      match c
      case 'T' => Ok(10)
      case 'J' => Ok(11)
      case 'Q' => Ok(12)
      case 'K' => Ok(13)
      case 'A' => Ok(14)
      case _ => Err(IllegalArgument("Invalid rank character: " + [c]))
  }

  /** The rank character of every rank decodes to that rank. */
  lemma RankCharRoundTrip(rank: Rank)
    ensures GetRankFromChar(RankChars[rank - 2]) == Ok(rank)
  {
    var r := GetRankFromChar(RankChars[rank - 2]);
    assert r.Ok?;
    assert RankChars[r.value - 2] == RankChars[rank - 2];
    RankCharsDistinct(r.value as int - 2, rank as int - 2);
  }

  lemma RankCharsDistinct(a: int, b: int)
    requires 0 <= a < 13 && 0 <= b < 13 && RankChars[a] == RankChars[b]
    ensures a == b
  {
  }

  /** Two characters that decode to the same rank are the same character. */
  lemma GetRankFromCharInjective(a: char, b: char)
    requires GetRankFromChar(a).Ok? && GetRankFromChar(b).Ok?
    requires GetRankFromChar(a).value == GetRankFromChar(b).value
    ensures a == b
  {
  }

  /** The rank characters in table order, ace first: entry x stands for rank 14 - x. */
  const TableRanks: string := "AKQJT98765432"

  /**
   * The code in row i, column j: a pair on the diagonal, the suited
   * combination above it and the offsuit one below it, higher rank first.
   */
  function Code(i: int, j: int): (s: string)
    requires 0 <= i < 13 && 0 <= j < 13
  {
    if i == j then [TableRanks[i], TableRanks[i]]
    else if i < j then [TableRanks[i], TableRanks[j], 's']
    else [TableRanks[j], TableRanks[i], 'o']
  }

  /** `pokerRangeTable`. */
  const RangeTable: seq<seq<string>> := [
    ["AA", "AKs", "AQs", "AJs", "ATs", "A9s", "A8s", "A7s", "A6s", "A5s", "A4s", "A3s", "A2s"],
    ["AKo", "KK", "KQs", "KJs", "KTs", "K9s", "K8s", "K7s", "K6s", "K5s", "K4s", "K3s", "K2s"],
    ["AQo", "KQo", "QQ", "QJs", "QTs", "Q9s", "Q8s", "Q7s", "Q6s", "Q5s", "Q4s", "Q3s", "Q2s"],
    ["AJo", "KJo", "QJo", "JJ", "JTs", "J9s", "J8s", "J7s", "J6s", "J5s", "J4s", "J3s", "J2s"],
    ["ATo", "KTo", "QTo", "JTo", "TT", "T9s", "T8s", "T7s", "T6s", "T5s", "T4s", "T3s", "T2s"],
    ["A9o", "K9o", "Q9o", "J9o", "T9o", "99", "98s", "97s", "96s", "95s", "94s", "93s", "92s"],
    ["A8o", "K8o", "Q8o", "J8o", "T8o", "98o", "88", "87s", "86s", "85s", "84s", "83s", "82s"],
    ["A7o", "K7o", "Q7o", "J7o", "T7o", "97o", "87o", "77", "76s", "75s", "74s", "73s", "72s"],
    ["A6o", "K6o", "Q6o", "J6o", "T6o", "96o", "86o", "76o", "66", "65s", "64s", "63s", "62s"],
    ["A5o", "K5o", "Q5o", "J5o", "T5o", "95o", "85o", "75o", "65o", "55", "54s", "53s", "52s"],
    ["A4o", "K4o", "Q4o", "J4o", "T4o", "94o", "84o", "74o", "64o", "54o", "44", "43s", "42s"],
    ["A3o", "K3o", "Q3o", "J3o", "T3o", "93o", "83o", "73o", "63o", "53o", "43o", "33", "32s"],
    ["A2o", "K2o", "Q2o", "J2o", "T2o", "92o", "82o", "72o", "62o", "52o", "42o", "32o", "22"]
  ]

  /** The table is 13x13 and every cell holds the code its position calls for. */
  lemma RangeTableLayout()
    ensures |RangeTable| == 13
    ensures forall i :: 0 <= i < 13 ==> |RangeTable[i]| == 13
    ensures forall i, j :: 0 <= i < 13 && 0 <= j < 13 ==> RangeTable[i][j] == Code(i, j)
  {
    RangeRowsTop();
    RangeRowsBottom();
  }

  /** Rows 0..6 of the table hold the codes their positions call for. */
  lemma RangeRowsTop()
    ensures forall i :: 0 <= i < 7 ==> |RangeTable[i]| == 13
    ensures forall i, j :: 0 <= i < 7 && 0 <= j < 13 ==> RangeTable[i][j] == Code(i, j)
  {
  }

  /** Rows 7..12 of the table hold the codes their positions call for. */
  lemma RangeRowsBottom()
    ensures forall i :: 7 <= i < 13 ==> |RangeTable[i]| == 13
    ensures forall i, j :: 7 <= i < 13 && 0 <= j < 13 ==> RangeTable[i][j] == Code(i, j)
  {
  }

  /** Table entry x is the rank character of rank 14 - x. */
  lemma TableRankChar(x: int)
    requires 0 <= x < 13
    ensures TableRanks[x] == RankChars[12 - x]
    ensures GetRankFromChar(TableRanks[x]) == Ok(14 - x)
  {
    RankCharRoundTrip(14 - x);
  }

  /**
   * Every cell decodes: a pair on the diagonal, a suited code above it,
   * an offsuit code below it, ranks 14 - min(i, j) then 14 - max(i, j), so
   * the first rank is never below the second.
   */
  lemma RangeTableCodes(i: int, j: int)
    requires 0 <= i < 13 && 0 <= j < 13
    ensures var s := RangeTable[i][j];
            && (|s| == 2 <==> i == j)
            && (i < j ==> |s| == 3 && s[2] == 's')
            && (i > j ==> |s| == 3 && s[2] == 'o')
            && GetRankFromChar(s[0]) == Ok(14 - (if i < j then i else j))
            && GetRankFromChar(s[1]) == Ok(14 - (if i < j then j else i))
            && GetRankFromChar(s[0]).value >= GetRankFromChar(s[1]).value
  {
    RangeTableLayout();
    CodeDecodes(i, j);
  }

  /** The code a table position calls for decodes to the ranks of its row and column. */
  lemma CodeDecodes(i: int, j: int)
    requires 0 <= i < 13 && 0 <= j < 13
    ensures var s := Code(i, j);
            && (|s| == 2 <==> i == j)
            && (i < j ==> |s| == 3 && s[2] == 's')
            && (i > j ==> |s| == 3 && s[2] == 'o')
            && GetRankFromChar(s[0]) == Ok(14 - (if i < j then i else j))
            && GetRankFromChar(s[1]) == Ok(14 - (if i < j then j else i))
            && GetRankFromChar(s[0]).value >= GetRankFromChar(s[1]).value
  {
    var lo, hi := if i < j then i else j, if i < j then j else i;
    var s := Code(i, j);
    assert s[0] == TableRanks[lo] && s[1] == TableRanks[hi];
    TableRankChar(lo);
    TableRankChar(hi);
  }

  /** Does a (suit1, suit2) pair get tried for this code? Same suit exactly when suited. */
  predicate Eligible(suited: bool, s1: Suit, s2: Suit) {
    (s1 == s2) == suited
  }

  /** Both cards of a combination are free in `g`, and they are two different cards. */
  predicate FreeCombo(g: Game, r1: Rank, r2: Rank, s1: Suit, s2: Suit)
    requires |g.deck| == 52
  {
    && !g.deck[Slot(r1, s1)].isDealt
    && !g.deck[Slot(r2, s2)].isDealt
    && Slot(r1, s1) != Slot(r2, s2)
  }

  /** Flags only get set: whatever was dealt in `g` is still dealt in `h`. */
  ghost predicate Grows(g: Game, h: Game)
    requires |g.deck| == 52 && |h.deck| == 52
  {
    forall i :: 0 <= i < 52 && g.deck[i].isDealt ==> h.deck[i].isDealt
  }

  /** `dealCard` on a valid rank and suit, which never goes out of bounds. */
  function DealFace(g: Game, rank: Rank, suit: Suit): (r: (Game, Option<Card>))
    requires Valid(g)
    ensures Valid(r.0) && r.0.players == g.players && r.0.board == g.board
    ensures r.1.Some? <==> !g.deck[Slot(rank, suit)].isDealt
    ensures r.1.None? ==> r.0 == g
    ensures r.1.Some? ==>
              && r.1.value == Card(rank, suit, true)
              && r.0.deck == g.deck[Slot(rank, suit) := Card(rank, suit, true)]
  {
    var p := Slot(rank, suit);
    assert g.deck[p] == Card(rank, suit, g.deck[p].isDealt);
    DealCard(g, rank, suit).value
  }

  /**
   * The nested suit loops of `parseHandFromRangeCode`, from combination
   * n = suit1 * 4 + suit2 on: skip ineligible pairs, deal card1 and card2,
   * return the first pair where both were free. A card dealt in a failed
   * attempt stays dealt.
   */
  function TryPairs(g: Game, r1: Rank, r2: Rank, suited: bool, n: nat): (r: (Game, Option<(Card, Card)>))
    requires Valid(g) && n <= 16
    decreases 16 - n
    ensures Valid(r.0) && r.0.players == g.players && r.0.board == g.board && Grows(g, r.0)
    ensures r.1.Some? ==> Picked(g, r.0, r1, r2, suited, n, r.1.value.0, r.1.value.1)
  {
    if n == 16 then (g, None)
    else
      var s1: Suit, s2: Suit := n / 4, n % 4;
      if !Eligible(suited, s1, s2) then TryPairs(g, r1, r2, suited, n + 1)
      else
        var (g1, c1) := DealFace(g, r1, s1);
        var (g2, c2) := DealFace(g1, r2, s2);
        DealFaceGrows(g, r1, s1);
        DealFaceGrows(g1, r2, s2);
        if c1.Some? && c2.Some? then
          PickedHere(g, g1, g2, r1, r2, suited, n);
          (g2, Some((c1.value, c2.value)))
        else
          var r := TryPairs(g2, r1, r2, suited, n + 1);
          GrowsTrans(g, g1, g2);
          GrowsTrans(g, g2, r.0);
          if r.1.Some? then
            PickedEarlier(g, g2, r.0, r1, r2, suited, n, r.1.value.0, r.1.value.1);
            r
          else r
  }

  /**
   * The hand the suit loops return: cards of the code's ranks, an eligible
   * combination at or after n, both free in `g` before the call and dealt
   * in `h` after it.
   */
  ghost predicate Picked(g: Game, h: Game, r1: Rank, r2: Rank, suited: bool, n: int, c1: Card, c2: Card)
    requires |g.deck| == 52 && |h.deck| == 52
  {
    && c1 == Card(r1, c1.suit, true) && c2 == Card(r2, c2.suit, true)
    && Eligible(suited, c1.suit, c2.suit)
    && n <= c1.suit * 4 + c2.suit
    && FreeCombo(g, r1, r2, c1.suit, c2.suit)
    && h.deck[Slot(r1, c1.suit)] == c1 && h.deck[Slot(r2, c2.suit)] == c2
  }

  /** `dealCard` only sets flags. */
  lemma DealFaceGrows(g: Game, rank: Rank, suit: Suit)
    requires Valid(g)
    ensures Grows(g, DealFace(g, rank, suit).0)
  {
  }

  lemma GrowsTrans(a: Game, b: Game, c: Game)
    requires |a.deck| == 52 && |b.deck| == 52 && |c.deck| == 52
    requires Grows(a, b) && Grows(b, c)
    ensures Grows(a, c)
  {
  }

  /** Both cards of attempt n were free: that attempt is the hand returned. */
  lemma PickedHere(g: Game, g1: Game, g2: Game, r1: Rank, r2: Rank, suited: bool, n: nat)
    requires Valid(g) && n < 16 && Eligible(suited, n / 4, n % 4)
    requires (g1, DealFace(g, r1, n / 4).1) == DealFace(g, r1, n / 4)
    requires (g2, DealFace(g1, r2, n % 4).1) == DealFace(g1, r2, n % 4)
    requires DealFace(g, r1, n / 4).1.Some? && DealFace(g1, r2, n % 4).1.Some?
    ensures Picked(g, g2, r1, r2, suited, n, DealFace(g, r1, n / 4).1.value, DealFace(g1, r2, n % 4).1.value)
  {
  }

  /** A hand picked from a later attempt of a grown game was free in the earlier game too. */
  lemma PickedEarlier(g: Game, g2: Game, h: Game, r1: Rank, r2: Rank, suited: bool, n: nat, c1: Card, c2: Card)
    requires |g.deck| == 52 && |g2.deck| == 52 && |h.deck| == 52 && Grows(g, g2)
    requires Picked(g2, h, r1, r2, suited, n + 1, c1, c2)
    ensures Picked(g, h, r1, r2, suited, n, c1, c2)
  {
    assert 0 <= Slot(r1, c1.suit) < 52 && 0 <= Slot(r2, c2.suit) < 52;
  }

  /**
   * The character part of `parseHandFromRangeCode`: the two ranks and
   * whether the code is suited. A missing character (the caught
   * StringIndexOutOfBoundsException) or a bad rank character (the caught
   * IllegalArgumentException) gives None.
   */
  function DecodeRangeCode(code: string): (r: Option<(Rank, Rank, bool)>)
    ensures r.None? <==> |code| < 2 || GetRankFromChar(code[0]).Err? || GetRankFromChar(code[1]).Err?
    ensures r.Some? ==>
              && GetRankFromChar(code[0]) == Ok(r.value.0) && GetRankFromChar(code[1]) == Ok(r.value.1)
              && (r.value.2 <==> |code| == 3 && code[2] == 's')
  {
    if |code| < 1 then None
    else
      match GetRankFromChar(code[0])
      case Err(_) => None
      case Ok(r1) =>
        if |code| < 2 then None
        else
          match GetRankFromChar(code[1])
          case Err(_) => None
          case Ok(r2) => Some((r1, r2, |code| == 3 && code[2] == 's'))
  }

  /** Every table code decodes to its two ranks, suited exactly above the diagonal. */
  lemma RangeTableDecodes(i: int, j: int)
    requires 0 <= i < 13 && 0 <= j < 13
    ensures DecodeRangeCode(RangeTable[i][j])
              == Some((14 - (if i < j then i else j), 14 - (if i < j then j else i), i < j))
  {
    RangeTableCodes(i, j);
  }

  /**
   * `parseHandFromRangeCode`: null with nothing dealt when the code does
   * not decode; otherwise the suit loops. A hand returned has the ranks of
   * the first two characters, is of one suit exactly when suited, and both
   * cards were free before the call and are dealt after it. So when no
   * eligible combination of two free cards exists, the result is null.
   */
  function ParseHandFromRangeCode(g: Game, code: string): (r: (Game, Option<(Card, Card)>))
    requires Valid(g)
    ensures Valid(r.0) && r.0.players == g.players && r.0.board == g.board && Grows(g, r.0)
    ensures DecodeRangeCode(code).None? ==> r == (g, None)
    ensures r.1.Some? ==>
              var (c1, c2) := r.1.value;
              && DecodeRangeCode(code) == Some((c1.rank, c2.rank, c1.suit == c2.suit))
              && FreeCombo(g, c1.rank, c2.rank, c1.suit, c2.suit)
              && r.0.deck[Slot(c1.rank, c1.suit)] == c1 && r.0.deck[Slot(c2.rank, c2.suit)] == c2
              && c1.isDealt && c2.isDealt
  {
    match DecodeRangeCode(code)
    case None => (g, None)
    case Some((r1, r2, suited)) => TryPairs(g, r1, r2, suited, 0)
  }

  /** Combination n = suit1 * 4 + suit2 is tried for this code and both of its cards are free. */
  predicate ComboAt(g: Game, r1: Rank, r2: Rank, suited: bool, n: int)
    requires |g.deck| == 52
  {
    0 <= n < 16 && Eligible(suited, n / 4, n % 4) && FreeCombo(g, r1, r2, n / 4, n % 4)
  }

  /** Some combination from n on is tried for this code and available. */
  predicate ComboFrom(g: Game, r1: Rank, r2: Rank, suited: bool, n: int)
    requires |g.deck| == 52
  {
    exists m :: n <= m < 16 && ComboAt(g, r1, r2, suited, m)
  }

  /** No combination from n up to k (exclusive) is tried for this code and available. */
  predicate NoComboBetween(g: Game, r1: Rank, r2: Rank, suited: bool, n: int, k: int)
    requires |g.deck| == 52
  {
    forall m :: n <= m < k ==> !ComboAt(g, r1, r2, suited, m)
  }

  /**
   * What the suited search promises from combination n on: a hand exactly
   * when some combination from n is available, and then none before it.
   */
  predicate FindsFirstFree(g: Game, r1: Rank, r2: Rank, n: int, r: (Game, Option<(Card, Card)>))
    requires |g.deck| == 52
  {
    && (r.1.Some? <==> ComboFrom(g, r1, r2, true, n))
    && (r.1.Some? ==> NoComboBetween(g, r1, r2, true, n, r.1.value.0.suit * 4 + r.1.value.1.suit))
  }

  /**
   * For a suited code of two different ranks, a failed attempt only
   * touches cards of the suit it tried, so the loops find the lowest suit
   * holding both cards free: the result is a hand iff such a suit exists.
   */
  lemma {:induction false} SuitedFirstFree(g: Game, r1: Rank, r2: Rank, n: nat)
    requires Valid(g) && n <= 16 && r1 != r2
    decreases 16 - n, 1
    ensures FindsFirstFree(g, r1, r2, n, TryPairs(g, r1, r2, true, n))
  {
    if n < 16 {
      if !Eligible(true, n / 4, n % 4) {
        assert TryPairs(g, r1, r2, true, n) == TryPairs(g, r1, r2, true, n + 1);
        SuitedFirstFree(g, r1, r2, n + 1);
        FindsFirstFreeSkip(g, g, r1, r2, n, TryPairs(g, r1, r2, true, n + 1));
      } else {
        SuitedAttempt(g, r1, r2, n);
      }
    }
  }

  /** The attempt at suit n / 4 == n % 4: success there, or the search goes on from an unchanged view of the higher suits. */
  lemma {:induction false} SuitedAttempt(g: Game, r1: Rank, r2: Rank, n: nat)
    requires Valid(g) && n < 16 && r1 != r2 && Eligible(true, n / 4, n % 4)
    decreases 16 - n, 0
    ensures FindsFirstFree(g, r1, r2, n, TryPairs(g, r1, r2, true, n))
  {
    if ComboAt(g, r1, r2, true, n) {
      SuitedHit(g, r1, r2, n);
    } else {
      var s: Suit := n / 4;
      var g2 := DealFace(DealFace(g, r1, s).0, r2, s).0;
      SuitedMiss(g, r1, r2, n);
      FailedSuitLeavesOthers(g, g2, r1, r2, n);
      SuitedFirstFree(g2, r1, r2, n + 1);
      FindsFirstFreeSkip(g, g2, r1, r2, n, TryPairs(g2, r1, r2, true, n + 1));
    }
  }

  /**
   * Past an unavailable combination n, a result that is the first free one
   * from n + 1 in a deck that looks the same from there is the first free
   * one from n.
   */
  lemma FindsFirstFreeSkip(g: Game, g2: Game, r1: Rank, r2: Rank, n: nat, r: (Game, Option<(Card, Card)>))
    requires |g.deck| == 52 && |g2.deck| == 52 && n < 16 && !ComboAt(g, r1, r2, true, n)
    requires forall m :: n < m < 16 ==> ComboAt(g2, r1, r2, true, m) == ComboAt(g, r1, r2, true, m)
    requires FindsFirstFree(g2, r1, r2, n + 1, r)
    ensures FindsFirstFree(g, r1, r2, n, r)
  {
    SameViewFrom(g, g2, r1, r2, n + 1);
    SearchFrom(g, r1, r2, true, n);
  }

  /** Two decks that agree on every combination from `from` on agree on the searches from there. */
  lemma SameViewFrom(g: Game, g2: Game, r1: Rank, r2: Rank, from: nat)
    requires |g.deck| == 52 && |g2.deck| == 52
    requires forall m :: from <= m < 16 ==> ComboAt(g2, r1, r2, true, m) == ComboAt(g, r1, r2, true, m)
    ensures ComboFrom(g2, r1, r2, true, from) == ComboFrom(g, r1, r2, true, from)
    ensures forall k :: NoComboBetween(g2, r1, r2, true, from, k) ==> NoComboBetween(g, r1, r2, true, from, k)
  {
  }

  /** Both cards free at suit n / 4: that suit is returned. */
  lemma SuitedHit(g: Game, r1: Rank, r2: Rank, n: nat)
    requires Valid(g) && n < 16 && r1 != r2 && ComboAt(g, r1, r2, true, n)
    ensures var r := TryPairs(g, r1, r2, true, n);
            r.1.Some? && r.1.value.0.suit * 4 + r.1.value.1.suit == n
  {
    var s: Suit := n / 4;
    var (g1, c1) := DealFace(g, r1, s);
    var (g2, c2) := DealFace(g1, r2, s);
    assert c1.Some? && c2.Some?;
  }

  /** A card of suit n / 4 taken: the loops move on from the game the attempt left. */
  lemma SuitedMiss(g: Game, r1: Rank, r2: Rank, n: nat)
    requires Valid(g) && n < 16 && r1 != r2 && Eligible(true, n / 4, n % 4) && !ComboAt(g, r1, r2, true, n)
    ensures var s: Suit := n / 4;
            TryPairs(g, r1, r2, true, n) == TryPairs(DealFace(DealFace(g, r1, s).0, r2, s).0, r1, r2, true, n + 1)
  {
    var s: Suit := n / 4;
    var (g1, c1) := DealFace(g, r1, s);
    assert Slot(r1, s) != Slot(r2, s);
    assert g1.deck[Slot(r2, s)] == g.deck[Slot(r2, s)];
    var (g2, c2) := DealFace(g1, r2, s);
    assert !(c1.Some? && c2.Some?);
  }

  /** A failed attempt at suit n / 4 deals at most those two cards, so later combinations look the same. */
  lemma FailedSuitLeavesOthers(g: Game, g2: Game, r1: Rank, r2: Rank, n: nat)
    requires Valid(g) && n < 16 && n / 4 == n % 4
    requires g2 == DealFace(DealFace(g, r1, n / 4).0, r2, n / 4).0
    ensures |g2.deck| == 52
    ensures forall m :: n < m < 16 ==> ComboAt(g2, r1, r2, true, m) == ComboAt(g, r1, r2, true, m)
  {
    var s: Suit := n / 4;
    forall m | n < m < 16 && m / 4 == m % 4
      ensures ComboAt(g2, r1, r2, true, m) == ComboAt(g, r1, r2, true, m)
    {
      OtherSuitSlots(r1, r2, s, m / 4);
    }
  }

  /** Past a combination that is not available, searching from it or from the next one is the same. */
  lemma SearchFrom(g: Game, r1: Rank, r2: Rank, suited: bool, n: nat)
    requires |g.deck| == 52 && n < 16 && !ComboAt(g, r1, r2, suited, n)
    ensures ComboFrom(g, r1, r2, suited, n) <==> ComboFrom(g, r1, r2, suited, n + 1)
    ensures forall k :: NoComboBetween(g, r1, r2, suited, n + 1, k) ==> NoComboBetween(g, r1, r2, suited, n, k)
  {
  }

  /** Slots of two different suits differ, whatever the ranks. */
  lemma OtherSuitSlots(r1: Rank, r2: Rank, s: Suit, t: Suit)
    requires s != t
    ensures Slot(r1, s) != Slot(r1, t) && Slot(r1, s) != Slot(r2, t)
    ensures Slot(r2, s) != Slot(r1, t) && Slot(r2, s) != Slot(r2, t)
  {
  }

  /** With every card of both ranks taken, the loops deal nothing and return null. */
  lemma {:induction false} AllTakenNull(g: Game, r1: Rank, r2: Rank, suited: bool, n: nat)
    requires Valid(g) && n <= 16
    requires forall s: Suit :: g.deck[Slot(r1, s)].isDealt && g.deck[Slot(r2, s)].isDealt
    decreases 16 - n
    ensures TryPairs(g, r1, r2, suited, n) == (g, None)
  {
    if n < 16 {
      AllTakenNull(g, r1, r2, suited, n + 1);
    }
  }

  /** Dealing two different free cards: both come back dealt and two fewer cards are left. */
  function DealBoth(g: Game, r1: Rank, r2: Rank, s1: Suit, s2: Suit): (r: (Game, Card, Card))
    requires Valid(g) && FreeCombo(g, r1, r2, s1, s2)
    ensures Valid(r.0) && r.0.players == g.players && r.0.board == g.board
    ensures r.1 == Card(r1, s1, true) && r.2 == Card(r2, s2, true)
    ensures r.0.deck == g.deck[Slot(r1, s1) := r.1][Slot(r2, s2) := r.2]
    ensures r.0.cardsLeft == g.cardsLeft - 2
  {
    var (g1, c1) := DealFace(g, r1, s1);
    var (g2, c2) := DealFace(g1, r2, s2);
    (g2, c1.value, c2.value)
  }

  /**
   * The checked loops stop at combination k = c1.suit * 4 + c2.suit, the
   * first one from n on that is tried and free, deal exactly its two
   * cards, and leave everything else as it was.
   */
  predicate PicksFirst(g: Game, r1: Rank, r2: Rank, suited: bool, n: int, g2: Game, c1: Card, c2: Card)
    requires |g.deck| == 52
  {
    var k := c1.suit * 4 + c2.suit;
    && n <= k && ComboAt(g, r1, r2, suited, k)
    && NoComboBetween(g, r1, r2, suited, n, k)
    && c1 == Card(r1, c1.suit, true) && c2 == Card(r2, c2.suit, true)
    && g2.deck == g.deck[Slot(r1, c1.suit) := c1][Slot(r2, c2.suit) := c2]
    && g2.cardsLeft == g.cardsLeft - 2
  }

  /** Dealing combination n when it is tried and free picks the first one from n on. */
  lemma PicksHere(g: Game, r1: Rank, r2: Rank, suited: bool, n: nat)
    requires Valid(g) && ComboAt(g, r1, r2, suited, n)
    ensures var (g2, c1, c2) := DealBoth(g, r1, r2, n / 4, n % 4);
            PicksFirst(g, r1, r2, suited, n, g2, c1, c2)
  {
  }

  /** Skipping a combination that is not available keeps the pick the first one. */
  lemma PicksLater(g: Game, r1: Rank, r2: Rank, suited: bool, n: nat, g2: Game, c1: Card, c2: Card)
    requires |g.deck| == 52 && !ComboAt(g, r1, r2, suited, n)
    requires PicksFirst(g, r1, r2, suited, n + 1, g2, c1, c2)
    ensures PicksFirst(g, r1, r2, suited, n, g2, c1, c2)
  {
    SearchFrom(g, r1, r2, suited, n);
  }

  /**
   * The suit loops with both cards checked before either is dealt, so an
   * attempt that fails deals nothing: the result is the first available
   * combination in loop order, and null exactly when there is none.
   */
  function TryPairsChecked(g: Game, r1: Rank, r2: Rank, suited: bool, n: nat): (r: (Game, Option<(Card, Card)>))
    requires Valid(g) && n <= 16
    decreases 16 - n
    ensures Valid(r.0) && r.0.players == g.players && r.0.board == g.board
    ensures r.1.Some? <==> ComboFrom(g, r1, r2, suited, n)
    ensures r.1.None? ==> r.0 == g
    ensures r.1.Some? ==> PicksFirst(g, r1, r2, suited, n, r.0, r.1.value.0, r.1.value.1)
  {
    if n == 16 then (g, None)
    else if ComboAt(g, r1, r2, suited, n) then
      PicksHere(g, r1, r2, suited, n);
      var (g2, c1, c2) := DealBoth(g, r1, r2, n / 4, n % 4);
      (g2, Some((c1, c2)))
    else
      SearchFrom(g, r1, r2, suited, n);
      var r := TryPairsChecked(g, r1, r2, suited, n + 1);
      if r.1.Some? then
        PicksLater(g, r1, r2, suited, n, r.0, r.1.value.0, r.1.value.1);
        r
      else r
  }

  /** `parseHandFromRangeCode` with the leak closed: same decoding, checked suit loops. */
  function ParseHandChecked(g: Game, code: string): (r: (Game, Option<(Card, Card)>))
    requires Valid(g)
    ensures Valid(r.0) && r.0.players == g.players && r.0.board == g.board
    ensures r.1.None? ==> r.0 == g
    ensures DecodeRangeCode(code).None? ==> r.1.None?
    ensures DecodeRangeCode(code).Some? ==>
              var (r1, r2, suited) := DecodeRangeCode(code).value;
              (r.1.Some? <==> ComboFrom(g, r1, r2, suited, 0))
  {
    match DecodeRangeCode(code)
    case None => (g, None)
    case Some((r1, r2, suited)) => TryPairsChecked(g, r1, r2, suited, 0)
  }

  /**
   * Of the aces and kings, only the ace of hearts (rank 14, suit 1) and
   * the king of diamonds (rank 13, suit 2) are free.
   */
  predicate LeakDeck(g: Game)
    requires |g.deck| == 52
  {
    && g.deck[Slot(14, 0)].isDealt && !g.deck[Slot(14, 1)].isDealt
    && g.deck[Slot(14, 2)].isDealt && g.deck[Slot(14, 3)].isDealt
    && g.deck[Slot(13, 0)].isDealt && g.deck[Slot(13, 1)].isDealt
    && !g.deck[Slot(13, 2)].isDealt && g.deck[Slot(13, 3)].isDealt
  }

  /**
   * "AKo" on such a deck: the offsuit pair (ace of hearts, king of
   * diamonds) is free and is the first available combination, yet the
   * loops as written return null. Attempt (0, 2) deals the king of
   * diamonds although the ace of spades is gone, and attempt (1, 0) deals
   * the ace of hearts although the king of spades is gone; by the time
   * (1, 2) comes up both are taken. The checked loops return that pair.
   */
  lemma OffsuitLeak(g: Game)
    requires Valid(g) && LeakDeck(g)
    ensures ComboAt(g, 14, 13, false, 6)
    ensures ParseHandFromRangeCode(g, "AKo").1.None?
    ensures ParseHandChecked(g, "AKo").1 == Some((Card(14, 1, true), Card(13, 2, true)))
  {
    LeakComboFree(g);
    LeakAsWritten(g);
    LeakChecked(g);
  }

  /** On such a deck the offsuit combination (ace of hearts, king of diamonds) is the first one available. */
  lemma LeakComboFree(g: Game)
    requires Valid(g) && LeakDeck(g)
    ensures ComboAt(g, 14, 13, false, 6)
    ensures forall m :: 0 <= m < 6 ==> !ComboAt(g, 14, 13, false, m)
  {
    assert Slot(14, 1) == 25 && Slot(13, 2) == 37;
    assert FreeCombo(g, 14, 13, 1, 2);
    forall m | 0 <= m < 6 ensures !ComboAt(g, 14, 13, false, m) { }
  }

  /** An attempt whose two cards are both taken, or that is skipped, changes nothing. */
  lemma AttemptBothTaken(g: Game, r1: Rank, r2: Rank, suited: bool, n: nat)
    requires Valid(g) && n < 16
    requires Eligible(suited, n / 4, n % 4) ==> g.deck[Slot(r1, n / 4)].isDealt && g.deck[Slot(r2, n % 4)].isDealt
    ensures TryPairs(g, r1, r2, suited, n) == TryPairs(g, r1, r2, suited, n + 1)
  {
  }

  /** An attempt whose first card is taken and whose second is free deals the second and moves on. */
  lemma AttemptSecondLeaks(g: Game, r1: Rank, r2: Rank, suited: bool, n: nat)
    requires Valid(g) && n < 16 && Eligible(suited, n / 4, n % 4)
    requires g.deck[Slot(r1, n / 4)].isDealt && !g.deck[Slot(r2, n % 4)].isDealt
    ensures TryPairs(g, r1, r2, suited, n) == TryPairs(DealFace(g, r2, n % 4).0, r1, r2, suited, n + 1)
  {
  }

  /** An attempt whose first card is free and whose second is taken deals the first and moves on. */
  lemma AttemptFirstLeaks(g: Game, r1: Rank, r2: Rank, suited: bool, n: nat)
    requires Valid(g) && n < 16 && Eligible(suited, n / 4, n % 4)
    requires !g.deck[Slot(r1, n / 4)].isDealt && g.deck[Slot(r2, n % 4)].isDealt
    requires Slot(r1, n / 4) != Slot(r2, n % 4)
    ensures TryPairs(g, r1, r2, suited, n) == TryPairs(DealFace(g, r1, n / 4).0, r1, r2, suited, n + 1)
  {
    var (g1, c1) := DealFace(g, r1, n / 4);
    assert g1.deck[Slot(r2, n % 4)] == g.deck[Slot(r2, n % 4)];
    assert DealFace(g1, r2, n % 4) == (g1, None);
  }

  /** The slots of the aces and kings. */
  lemma AceKingSlots()
    ensures Slot(14, 0) == 12 && Slot(14, 1) == 25 && Slot(14, 2) == 38 && Slot(14, 3) == 51
    ensures Slot(13, 0) == 11 && Slot(13, 1) == 24 && Slot(13, 2) == 37 && Slot(13, 3) == 50
  {
  }

  /** The loops as written return null on such a deck. */
  lemma LeakAsWritten(g: Game)
    requires Valid(g) && LeakDeck(g)
    ensures ParseHandFromRangeCode(g, "AKo").1.None?
  {
    assert DecodeRangeCode("AKo") == Some((14, 13, false));
    var g1 := LeakKingLeaks(g);
    var g2 := LeakAceLeaks(g1);
    AceKingTaken(g2.deck);
    AllTakenNull(g2, 14, 13, false, 5);
  }

  /** A deck with the eight ace and king slots dealt has every ace and king dealt. */
  lemma AceKingTaken(d: seq<Card>)
    requires |d| == 52
    requires forall i :: i in {11, 12, 24, 25, 37, 38, 50, 51} ==> d[i].isDealt
    ensures forall s: Suit :: d[Slot(14, s)].isDealt && d[Slot(13, s)].isDealt
  {
    forall s: Suit ensures d[Slot(14, s)].isDealt && d[Slot(13, s)].isDealt {
      AceKingSlots();
      assert s == 0 || s == 1 || s == 2 || s == 3;
    }
  }

  /** Attempts 0..2: the king of diamonds is dealt alone. */
  lemma LeakKingLeaks(g: Game) returns (g1: Game)
    requires Valid(g) && LeakDeck(g)
    ensures Valid(g1) && TryPairs(g, 14, 13, false, 0) == TryPairs(g1, 14, 13, false, 3)
    ensures g1.deck == g.deck[37 := Card(13, 2, true)]
  {
    AceKingSlots();
    AttemptBothTaken(g, 14, 13, false, 0);
    AttemptBothTaken(g, 14, 13, false, 1);
    AttemptSecondLeaks(g, 14, 13, false, 2);
    g1 := DealFace(g, 13, 2).0;
  }

  /** Attempts 3..4: the ace of hearts is dealt alone, after which no ace or king is free. */
  lemma LeakAceLeaks(g1: Game) returns (g2: Game)
    requires Valid(g1)
    requires g1.deck[12].isDealt && !g1.deck[25].isDealt && g1.deck[38].isDealt && g1.deck[51].isDealt
    requires g1.deck[11].isDealt && g1.deck[24].isDealt && g1.deck[37].isDealt && g1.deck[50].isDealt
    ensures Valid(g2) && TryPairs(g1, 14, 13, false, 3) == TryPairs(g2, 14, 13, false, 5)
    ensures forall i :: i in {11, 12, 24, 25, 37, 38, 50, 51} ==> g2.deck[i].isDealt
  {
    AceKingSlots();
    AttemptBothTaken(g1, 14, 13, false, 3);
    AttemptFirstLeaks(g1, 14, 13, false, 4);
    g2 := DealFace(g1, 14, 1).0;
  }

  /** The checked loops return the free pair on such a deck. */
  lemma LeakChecked(g: Game)
    requires Valid(g) && LeakDeck(g)
    ensures ParseHandChecked(g, "AKo").1 == Some((Card(14, 1, true), Card(13, 2, true)))
  {
    assert DecodeRangeCode("AKo") == Some((14, 13, false));
    LeakComboFree(g);
    var r := TryPairsChecked(g, 14, 13, false, 0);
    assert ComboFrom(g, 14, 13, false, 0);
    FirstPickIsSix(g, r.0, r.1.value.0, r.1.value.1);
  }

  /** When combination 6 is the first available one, the checked loops pick the ace of hearts and king of diamonds. */
  lemma FirstPickIsSix(g: Game, g2: Game, c1: Card, c2: Card)
    requires |g.deck| == 52 && ComboAt(g, 14, 13, false, 6)
    requires forall m :: 0 <= m < 6 ==> !ComboAt(g, 14, 13, false, m)
    requires PicksFirst(g, 14, 13, false, 0, g2, c1, c2)
    ensures c1 == Card(14, 1, true) && c2 == Card(13, 2, true)
  {
    var k := c1.suit * 4 + c2.suit;
    assert !(k < 6);
    assert !(6 < k);
  }

  /**
   * `isHandValid`: false iff some card of `hand` is among `myHand` or the
   * board. Membership is by the element type's own equality; in the
   * source that is object identity, since `Card` does not override
   * `equals`.
   */
  method IsHandValid<T(==)>(hand: seq<T>, myHand: seq<T>, board: seq<T>) returns (ok: bool)
    ensures ok <==> forall k :: 0 <= k < |hand| ==> hand[k] !in myHand && hand[k] !in board
  {
    var used := set c | c in myHand + board;
    var i := 0;
    while i < |hand|
      invariant 0 <= i <= |hand|
      invariant forall k :: 0 <= k < i ==> hand[k] !in myHand && hand[k] !in board
    {
      if hand[i] in used {
        return false;
      }
      i := i + 1;
    }
    return true;
  }
}
