/** The playing card value class (src/Card.java). */
module Cards {
  import opened Results

  /** Ranks 2..14, where 11 = J, 12 = Q, 13 = K and 14 = A. */
  type Rank = r: int | 2 <= r <= 14 witness 2

  /** Suits 0..3: spades, hearts, diamonds, clubs. */
  type Suit = s: int | 0 <= s <= 3 witness 0

  /** A card object: its face and the transient dealt flag kept on it. */
  datatype Card = Card(rank: Rank, suit: Suit, isDealt: bool)

  /** Two card objects show the same face. */
  predicate SameFace(a: Card, b: Card) {
    a.rank == b.rank && a.suit == b.suit
  }

  /** The constructor: range checks on rank, then suit; a new card is undealt. */
  function NewCard(rank: int, suit: int): (r: Result<Card>)
    ensures r.Ok? <==> 2 <= rank <= 14 && 0 <= suit <= 3
    ensures !(2 <= rank <= 14) ==> r == Err(IllegalArgument("Rank must be 2\U{2013}14"))
    ensures 2 <= rank <= 14 && !(0 <= suit <= 3) ==> r == Err(IllegalArgument("Suit must be 0\U{2013}3"))
    ensures r.Ok? ==> r.value.rank == rank && r.value.suit == suit && !r.value.isDealt
  {
    if rank < 2 || rank > 14 then Err(IllegalArgument("Rank must be 2\U{2013}14"))
    else if suit < 0 || suit > 3 then Err(IllegalArgument("Suit must be 0\U{2013}3"))
    else Ok(Card(rank, suit, false))
  }

  /** The glyph tables of `toString`, indexed by suit and by rank. */
  const SuitGlyphs: seq<string> := ["\U{2660}", "\U{2665}", "\U{2666}", "\U{2663}"]
  const RankGlyphs: seq<string> :=
    ["", "", "2", "3", "4", "5", "6", "7", "8", "9", "T", "J", "Q", "K", "A"]

  /** The rank characters in rank order, 2 first. */
  const RankChars: string := "23456789TJQKA"

  /** The suit characters in suit order. */
  const SuitChars: string := "\U{2660}\U{2665}\U{2666}\U{2663}"

  /** `toString`: the rank glyph followed by the suit glyph. */
  function ToString(c: Card): (s: string)
    ensures |s| == 2
    ensures s[0] == RankChars[c.rank - 2] && s[1] == SuitChars[c.suit]
  {
    RankGlyphs[c.rank] + SuitGlyphs[c.suit]
  }

  /** Distinct faces render differently: the rendering identifies the face. */
  lemma ToStringInjective(a: Card, b: Card)
    ensures ToString(a) == ToString(b) <==> SameFace(a, b)
  {
    if ToString(a) == ToString(b) {
      assert RankChars[a.rank - 2] == RankChars[b.rank - 2];
      assert SuitChars[a.suit] == SuitChars[b.suit];
    }
  }
}
