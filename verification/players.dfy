/** The player value class (src/Player.java): a name and a two-slot hand. */
module Players {
  import opened Results
  import opened Cards

  /** The `Card[2]` hand array; an empty slot is `null`. */
  type Hand = h: seq<Option<Card>> | |h| == 2 witness [None, None]

  datatype Player = Player(name: string, hand: Hand)

  /** How many hand slots hold a card. */
  function Filled(h: Hand): nat {
    (if h[0].Some? then 1 else 0) + (if h[1].Some? then 1 else 0)
  }

  /** The constructor: the given name and both slots empty. */
  function NewPlayer(name: string): (p: Player)
    ensures p.name == name && Filled(p.hand) == 0
  {
    Player(name, [None, None])
  }

  /**
   * `addCardToHand`: the card goes into the first empty slot and is marked
   * dealt; with both slots taken it throws and nothing changes.
   */
  function AddCardToHand(p: Player, card: Card): (r: Result<Player>)
    ensures r.Err? <==> Filled(p.hand) == 2
    ensures r.Err? ==> r.error == IllegalState("Player already has two cards")
    ensures r.Ok? ==> r.value.name == p.name && Filled(r.value.hand) == Filled(p.hand) + 1
    ensures r.Ok? ==>
              (exists i :: 0 <= i < 2 && p.hand[i] == None &&
                (forall j :: 0 <= j < i ==> p.hand[j].Some?) &&
                r.value.hand == p.hand[i := Some(card.(isDealt := true))])
  {
    var dealt := Some(card.(isDealt := true));
    if p.hand[0] == None then Ok(p.(hand := p.hand[0 := dealt]))
    else if p.hand[1] == None then Ok(p.(hand := p.hand[1 := dealt]))
    else Err(IllegalState("Player already has two cards"))
  }

  /**
   * Dealing two cards to a new player puts them in order into the two slots,
   * both marked dealt, and a third card is refused.
   */
  lemma TwoCardsThenFull(name: string, a: Card, b: Card, c: Card)
    ensures var p0 := NewPlayer(name);
            var r1 := AddCardToHand(p0, a);
            r1.Ok? && AddCardToHand(r1.value, b).Ok? &&
            var p2 := AddCardToHand(r1.value, b).value;
            p2.hand == [Some(a.(isDealt := true)), Some(b.(isDealt := true))] &&
            AddCardToHand(p2, c) == Err(IllegalState("Player already has two cards"))
  {
  }
}
