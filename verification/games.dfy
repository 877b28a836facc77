/**
 * The deck bookkeeping of src/Game.java: 52 card objects laid out by suit
 * and rank, each with a dealt flag, and a `cardsLeft` counter that must
 * equal the number of undealt slots.
 */
module Games {
  import opened Results
  import opened Cards
  import opened Players

  /** The deck index of a card face: `suit * 13 + rank - 2`. */
  function Slot(rank: Rank, suit: Suit): (i: nat)
    ensures i < 52 && i % 13 + 2 == rank && i / 13 == suit
  {
    SlotDivMod(rank, suit);
    suit * 13 + rank - 2
  }

  lemma SlotDivMod(rank: Rank, suit: Suit)
    ensures (suit * 13 + rank - 2) % 13 == rank - 2 && (suit * 13 + rank - 2) / 13 == suit
  {
    if suit == 0 {
    } else if suit == 1 {
    } else if suit == 2 {
    } else {
    }
  }

  /** Slot i holds the card of rank i % 13 + 2 and suit i / 13. */
  predicate Layout(deck: seq<Card>) {
    |deck| == 52 && forall i :: 0 <= i < 52 ==> deck[i].rank == i % 13 + 2 && deck[i].suit == i / 13
  }

  /** Under the layout, a card's face leads back to its own slot. */
  lemma SlotOfDeckCard(deck: seq<Card>, i: int)
    requires Layout(deck) && 0 <= i < 52
    ensures Slot(deck[i].rank, deck[i].suit) == i
  {
  }

  /** Undealt slots among the first n. */
  function UndealtIn(deck: seq<Card>, n: nat): nat
    requires n <= |deck|
  {
    if n == 0 then 0 else UndealtIn(deck, n - 1) + (if deck[n - 1].isDealt then 0 else 1)
  }

  /** Undealt slots in the whole deck. */
  function Undealt(deck: seq<Card>): nat {
    UndealtIn(deck, |deck|)
  }

  /** Replacing one slot changes the undealt count by the change in that slot alone. */
  lemma {:induction false} UndealtAfterUpdate(deck: seq<Card>, p: int, c: Card, n: nat)
    requires 0 <= p < |deck| && n <= |deck|
    ensures UndealtIn(deck[p := c], n) + (if p < n && !deck[p].isDealt then 1 else 0)
              == UndealtIn(deck, n) + (if p < n && !c.isDealt then 1 else 0)
  {
    if n > 0 {
      UndealtAfterUpdate(deck, p, c, n - 1);
    }
  }

  /** With no slot dealt, every slot counts. */
  lemma {:induction false} UndealtAllFree(deck: seq<Card>, n: nat)
    requires n <= |deck| && forall i :: 0 <= i < n ==> !deck[i].isDealt
    ensures UndealtIn(deck, n) == n
  {
    if n > 0 {
      UndealtAllFree(deck, n - 1);
    }
  }

  /** Two decks whose slots agree on the first n have equal counts there. */
  lemma {:induction false} UndealtSamePrefix(a: seq<Card>, b: seq<Card>, n: nat)
    requires n <= |a| && n <= |b| && forall i :: 0 <= i < n ==> a[i].isDealt == b[i].isDealt
    ensures UndealtIn(a, n) == UndealtIn(b, n)
  {
    if n > 0 {
      UndealtSamePrefix(a, b, n - 1);
    }
  }

  datatype Game = Game(deck: seq<Card>, cardsLeft: int, players: seq<Player>, board: seq<Option<Card>>)

  /**
   * The object invariant: the layout, `cardsLeft` counting exactly the
   * undealt slots, and the two seats the constructor creates.
   */
  predicate Valid(g: Game) {
    Layout(g.deck) && g.cardsLeft == Undealt(g.deck) && |g.players| >= 2
  }

  /**
   * The constructor: a card for every rank 2..14 of every suit 0..3 at
   * its slot, all undealt, 52 cards left, seats for "Clifford" and "Cody".
   */
  method NewGame() returns (g: Game)
    ensures Valid(g) && g.cardsLeft == 52 && g.board == []
    ensures forall i :: 0 <= i < 52 ==> !g.deck[i].isDealt
    ensures forall r: Rank, s: Suit :: g.deck[Slot(r, s)] == Card(r, s, false)
    ensures g.players == [NewPlayer("Clifford"), NewPlayer("Cody")]
  {
    var deck: seq<Card> := [];
    var suit := 0;
    while suit < 4
      invariant 0 <= suit <= 4 && |deck| == suit * 13
      invariant forall i :: 0 <= i < |deck| ==> deck[i] == Card(i % 13 + 2, i / 13, false)
    {
      var rank := 2;
      while rank <= 14
        invariant 2 <= rank <= 15 && |deck| == suit * 13 + rank - 2
        invariant forall i :: 0 <= i < |deck| ==> deck[i] == Card(i % 13 + 2, i / 13, false)
      {
        var c := NewCard(rank, suit);
        SlotDivMod(rank, suit);
        deck := deck + [c.value];
        rank := rank + 1;
      }
      suit := suit + 1;
    }
    UndealtAllFree(deck, 52);
    g := Game(deck, 52, [NewPlayer("Clifford"), NewPlayer("Cody")], []);
  }

  /**
   * `dealCard`: deals the card at `suit * 13 + rank - 2` if it is still
   * undealt and returns it, or returns null and changes nothing; an index
   * outside the deck throws.
   */
  function DealCard(g: Game, rank: int, suit: int): (r: Result<(Game, Option<Card>)>)
    requires |g.deck| == 52
    ensures var index := suit * 13 + rank - 2;
            && (r.Err? <==> !(0 <= index < 52))
            && (r.Err? ==> r.error == IndexOutOfBounds(index))
            && (r.Ok? && g.deck[index].isDealt ==> r.value == (g, None))
            && (r.Ok? && !g.deck[index].isDealt ==>
                  var c := g.deck[index].(isDealt := true);
                  r.value == (g.(deck := g.deck[index := c], cardsLeft := g.cardsLeft - 1), Some(c)))
    ensures r.Ok? && Valid(g) ==> Valid(r.value.0)
    ensures r.Ok? && Valid(g) && 2 <= rank <= 14 && 0 <= suit <= 3 && r.value.1.Some? ==>
              r.value.1.value.rank == rank && r.value.1.value.suit == suit
  {
    var index := suit * 13 + rank - 2;
    if index < 0 || index >= 52 then Err(IndexOutOfBounds(index))
    else if g.deck[index].isDealt then Ok((g, None))
    else
      var c := g.deck[index].(isDealt := true);
      UndealtAfterUpdate(g.deck, index, c, 52);
      assert 2 <= rank <= 14 && 0 <= suit <= 3 ==> index % 13 + 2 == rank && index / 13 == suit by {
        if 2 <= rank <= 14 && 0 <= suit <= 3 { SlotDivMod(rank, suit); }
      }
      Ok((g.(deck := g.deck[index := c], cardsLeft := g.cardsLeft - 1), Some(c)))
  }

  /** `addCommunityCard`: appends what `dealCard` returns, null included. */
  function AddCommunityCard(g: Game, rank: int, suit: int): (r: Result<Game>)
    requires |g.deck| == 52
    ensures r.Err? <==> DealCard(g, rank, suit).Err?
    ensures r.Ok? ==> var (g', c) := DealCard(g, rank, suit).value;
              r.value == g'.(board := g.board + [c])
    ensures r.Ok? && Valid(g) ==> Valid(r.value)
  {
    var d := DealCard(g, rank, suit);
    if d.Err? then Err(d.error) else Ok(d.value.0.(board := g.board + [d.value.1]))
  }

  /** The slot of the k-th undealt card from slot i on, or -1 when there are fewer. */
  function KthUndealtFrom(deck: seq<Card>, k: nat, i: nat): (p: int)
    requires i <= |deck|
    decreases |deck| - i
  {
    if i == |deck| || k == 0 then -1
    else if !deck[i].isDealt && k == 1 then i
    else KthUndealtFrom(deck, if deck[i].isDealt then k else k - 1, i + 1)
  }

  lemma {:induction false} KthUndealtFromFacts(deck: seq<Card>, k: nat, i: nat)
    requires i <= |deck|
    decreases |deck| - i
    ensures var p := KthUndealtFrom(deck, k, i);
            && (p == -1 <==> k == 0 || UndealtIn(deck, |deck|) - UndealtIn(deck, i) < k)
            && (p != -1 ==> i <= p < |deck| && !deck[p].isDealt && UndealtIn(deck, p) - UndealtIn(deck, i) == k - 1)
  {
    if i < |deck| && k != 0 && !(!deck[i].isDealt && k == 1) {
      KthUndealtFromFacts(deck, if deck[i].isDealt then k else k - 1, i + 1);
    }
    if i < |deck| {
      UndealtMonotone(deck, i + 1, |deck|);
    }
  }

  lemma {:induction false} UndealtMonotone(deck: seq<Card>, m: nat, n: nat)
    requires m <= n <= |deck|
    decreases n - m
    ensures UndealtIn(deck, m) <= UndealtIn(deck, n)
  {
    if m < n {
      UndealtMonotone(deck, m, n - 1);
    }
  }

  /**
   * The k-th undealt card in deck order: undealt itself, with exactly k - 1
   * undealt slots before it; -1 when k is 0 or exceeds the undealt count.
   */
  function KthUndealt(deck: seq<Card>, k: nat): (p: int)
    ensures p == -1 <==> k == 0 || Undealt(deck) < k
    ensures p != -1 ==> 0 <= p < |deck| && !deck[p].isDealt && UndealtIn(deck, p) == k - 1
  {
    KthUndealtFromFacts(deck, k, 0);
    KthUndealtFrom(deck, k, 0)
  }

  /** Deals slot p: its flag is set, `cardsLeft` drops by one, and the dealt card is returned. */
  function DealSlot(g: Game, p: int): (r: (Game, Option<Card>))
    requires 0 <= p < |g.deck|
  {
    var c := g.deck[p].(isDealt := true);
    (g.(deck := g.deck[p := c], cardsLeft := g.cardsLeft - 1), Some(c))
  }

  /**
   * What `randDealCard` does with draw k (1 <= k <= cardsLeft): null when
   * no card is left, otherwise the k-th undealt card, now dealt.
   */
  function DrawCard(g: Game, k: int): (r: (Game, Option<Card>))
    requires Valid(g) && (g.cardsLeft > 0 ==> 1 <= k <= g.cardsLeft)
    ensures Valid(r.0) && r.0.players == g.players && r.0.board == g.board
    ensures r.1.None? <==> g.cardsLeft == 0
    ensures r.1.None? ==> r.0 == g
    ensures r.1.Some? ==>
              var p := Slot(r.1.value.rank, r.1.value.suit);
              && !g.deck[p].isDealt && UndealtIn(g.deck, p) == k - 1
              && r.0.deck == g.deck[p := r.1.value] && r.1.value == g.deck[p].(isDealt := true)
              && r.0.cardsLeft == g.cardsLeft - 1
  {
    if g.cardsLeft == 0 then (g, None)
    else
      var p := KthUndealt(g.deck, k);
      var c := g.deck[p].(isDealt := true);
      UndealtAfterUpdate(g.deck, p, c, 52);
      SlotOfDeckCard(g.deck, p);
      DealSlot(g, p)
  }

  /**
   * `randDealCard`, its do-while scan included: counts undealt slots down
   * from the draw k and deals the slot where the count runs out.
   */
  method RandDealCard(g: Game, k: int) returns (g': Game, card: Option<Card>)
    requires Valid(g) && (g.cardsLeft > 0 ==> 1 <= k <= g.cardsLeft)
    ensures (g', card) == DrawCard(g, k)
  {
    if g.cardsLeft == 0 {
      return g, None;
    }
    var index := k;
    var i := 0;
    // The first pass of the do-while loop.
    if !g.deck[i].isDealt {
      index := index - 1;
    }
    i := i + 1;
    while index > 0 && i < 52
      invariant 1 <= i <= 52
      invariant index == k - UndealtIn(g.deck, i) && index >= 0
      invariant index == 0 ==> !g.deck[i - 1].isDealt
      decreases 52 - i
    {
      if !g.deck[i].isDealt {
        index := index - 1;
      }
      i := i + 1;
    }
    if index > 0 {
      // The scan ran off the deck: more draws than undealt slots, which the invariant rules out.
      assert false;
    }
    KthUndealtUnique(g.deck, k, i - 1);
    g', card := DealSlot(g, i - 1).0, DealSlot(g, i - 1).1;
  }

  /** Only one slot is undealt with exactly k - 1 undealt slots before it. */
  lemma KthUndealtUnique(deck: seq<Card>, k: nat, q: int)
    requires 0 <= q < |deck| && !deck[q].isDealt && UndealtIn(deck, q) == k - 1 && k >= 1
    ensures KthUndealt(deck, k) == q
  {
    KthUndealtExists(deck, k, q);
    SameUndealtRank(deck, KthUndealt(deck, k), q);
  }

  /** An undealt slot with k - 1 undealt slots before it means there are at least k. */
  lemma KthUndealtExists(deck: seq<Card>, k: nat, q: int)
    requires 0 <= q < |deck| && !deck[q].isDealt && UndealtIn(deck, q) == k - 1 && k >= 1
    ensures Undealt(deck) >= k
  {
    UndealtMonotone(deck, q + 1, |deck|);
    assert UndealtIn(deck, q + 1) == k;
  }

  /** Two undealt slots with the same number of undealt slots before them are the same slot. */
  lemma SameUndealtRank(deck: seq<Card>, p: int, q: int)
    requires 0 <= p < |deck| && 0 <= q < |deck| && !deck[p].isDealt && !deck[q].isDealt
    requires UndealtIn(deck, p) == UndealtIn(deck, q)
    ensures p == q
  {
    if p < q {
      UndealtBefore(deck, p, q);
    } else if p > q {
      UndealtBefore(deck, q, p);
    }
  }

  /** An undealt slot adds one to the count of every later slot. */
  lemma UndealtBefore(deck: seq<Card>, a: int, b: int)
    requires 0 <= a < b <= |deck| && !deck[a].isDealt
    ensures UndealtIn(deck, a) < UndealtIn(deck, b)
  {
    UndealtMonotone(deck, a + 1, b);
  }
}
