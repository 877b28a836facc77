/**
 * The trial loop of `runSim` in src/Game.java: deal the rest of the board
 * at random, score both seats, tally the result, then take the dealt cards
 * back so that the next trial starts from the same deck and board.
 */
module Simulation {
  import opened Results
  import opened Cards
  import opened Players
  import opened Games
  import opened Evaluator

  datatype Outcome = PlayerOneWins | PlayerTwoWins | Tie

  datatype Tally = Tally(playerOne: nat, playerTwo: nat, ties: nat)

  function Total(t: Tally): nat {
    t.playerOne + t.playerTwo + t.ties
  }

  /** Strict comparison of the two strengths decides the trial. */
  function Decide(s1: int, s2: int): (o: Outcome)
    ensures o == PlayerOneWins <==> s1 > s2
    ensures o == PlayerTwoWins <==> s1 < s2
    ensures o == Tie <==> s1 == s2
  {
    if s1 > s2 then PlayerOneWins else if s1 < s2 then PlayerTwoWins else Tie
  }

  /** Exactly one counter goes up by one. */
  function Record(t: Tally, o: Outcome): (r: Tally)
    ensures Total(r) == Total(t) + 1
    ensures r.playerOne == t.playerOne + (if o == PlayerOneWins then 1 else 0)
    ensures r.playerTwo == t.playerTwo + (if o == PlayerTwoWins then 1 else 0)
    ensures r.ties == t.ties + (if o == Tie then 1 else 0)
  {
    match o
    case PlayerOneWins => t.(playerOne := t.playerOne + 1)
    case PlayerTwoWins => t.(playerTwo := t.playerTwo + 1)
    case Tie => t.(ties := t.ties + 1)
  }

  /** Cards a trial deals: `5 - numCommunity`, no iterations when that is not positive. */
  function CardsToDeal(g: Game): nat {
    if |g.board| < 5 then 5 - |g.board| else 0
  }

  /**
   * The value `(int) (Math.random() * cardsLeft) + 1` takes for the n-th
   * draw, with the random source given as the oracle `rand`: a number in
   * 1..cardsLeft.
   */
  function DrawOf(rand: nat -> nat, n: nat, cardsLeft: int): (k: int)
    ensures cardsLeft > 0 ==> 1 <= k <= cardsLeft
  {
    if cardsLeft > 0 then rand(n) % cardsLeft + 1 else 1
  }

  /** The deck slots of the cards present in `cs`. */
  ghost function SlotSet(cs: seq<Option<Card>>): set<int> {
    set i | 0 <= i < |cs| && cs[i].Some? :: Slot(cs[i].value.rank, cs[i].value.suit)
  }

  /** No two present cards of `cs` share a slot. */
  ghost predicate DistinctSlots(cs: seq<Option<Card>>) {
    forall a, b :: 0 <= a < b < |cs| && cs[a].Some? && cs[b].Some? ==>
      Slot(cs[a].value.rank, cs[a].value.suit) != Slot(cs[b].value.rank, cs[b].value.suit)
  }

  /** Every entry holds a card. */
  predicate AllPresent(cs: seq<Option<Card>>) {
    forall a :: 0 <= a < |cs| ==> cs[a].Some?
  }

  /** Entry a holds a card exactly when a is below `left`: nulls come once the deck runs out. */
  ghost predicate PresentBelow(cs: seq<Option<Card>>, left: int) {
    forall a :: 0 <= a < |cs| ==> (cs[a].Some? <==> a < left)
  }

  /** Every card of `cs` sits in a slot that is free in `deck`. */
  ghost predicate AllFree(deck: seq<Card>, cs: seq<Option<Card>>)
    requires |deck| == 52
  {
    forall a :: 0 <= a < |cs| && cs[a].Some? ==> !deck[Slot(cs[a].value.rank, cs[a].value.suit)].isDealt
  }

  /** `after` is `before` with exactly the slots of `cs` marked dealt. */
  ghost predicate FlagsAdded(before: seq<Card>, after: seq<Card>, cs: seq<Option<Card>>)
    requires |before| == 52 && |after| == 52
  {
    forall i :: 0 <= i < 52 ==> (after[i].isDealt <==> before[i].isDealt || i in SlotSet(cs))
  }

  /** The facts of a deal that did not run out of cards. */
  ghost predicate FreshDeal(g: Game, g2: Game, cs: seq<Option<Card>>)
    requires Valid(g) && Valid(g2)
  {
    && g2.cardsLeft == g.cardsLeft - |cs|
    && DistinctSlots(cs)
    && AllFree(g.deck, cs)
    && FlagsAdded(g.deck, g2.deck, cs)
  }

  /**
   * Cards j..n-1 of trial t, dealt one `randDealCard` after another from g.
   * A card is present iff the deck still had one; when all are present they
   * were free, sit in distinct slots and are exactly the slots that became
   * dealt.
   */
  function DealCards(g: Game, rand: nat -> nat, t: nat, j: nat, n: nat): (r: (Game, seq<Option<Card>>))
    requires Valid(g)
    decreases n - j
    ensures Valid(r.0) && r.0.players == g.players && r.0.board == g.board
    ensures |r.1| == if j < n then n - j else 0
    ensures PresentBelow(r.1, g.cardsLeft)
    ensures AllPresent(r.1) <==> g.cardsLeft >= |r.1|
    ensures AllPresent(r.1) ==> FreshDeal(g, r.0, r.1)
  {
    if j >= n then (g, [])
    else
      var (g1, c) := DrawCard(g, DrawOf(rand, t * 5 + j, g.cardsLeft));
      var (g2, cs) := DealCards(g1, rand, t, j + 1, n);
      if c.None? then
        NullStep(g, cs);
        (g2, [c] + cs)
      else
        CardStep(g, g1, c.value, g2, cs);
        (g2, [c] + cs)
  }

  /** A null first: the deck was empty and stays so, so everything after is null too. */
  lemma NullStep(g: Game, cs: seq<Option<Card>>)
    requires g.cardsLeft == 0
    requires PresentBelow(cs, g.cardsLeft)
    ensures PresentBelow([None] + cs, g.cardsLeft)
    ensures AllPresent([None] + cs) <==> g.cardsLeft >= |cs| + 1
  {
    var all: seq<Option<Card>> := [None] + cs;
    assert !all[0].Some?;
    forall a | 0 < a < |all| ensures all[a].None? {
      assert all[a] == cs[a - 1];
    }
  }

  /** Prepending a present card adds its slot. */
  lemma SlotSetCons(c: Card, cs: seq<Option<Card>>)
    ensures SlotSet([Some(c)] + cs) == SlotSet(cs) + {Slot(c.rank, c.suit)}
  {
    var all := [Some(c)] + cs;
    forall x ensures x in SlotSet(all) <==> x in SlotSet(cs) || x == Slot(c.rank, c.suit) {
      if x in SlotSet(cs) {
        var i :| 0 <= i < |cs| && cs[i].Some? && x == Slot(cs[i].value.rank, cs[i].value.suit);
        assert all[i + 1] == cs[i];
      }
      if x in SlotSet(all) {
        var i :| 0 <= i < |all| && all[i].Some? && x == Slot(all[i].value.rank, all[i].value.suit);
        if i > 0 {
          assert all[i] == cs[i - 1];
        }
      }
      assert all[0] == Some(c);
    }
  }

  /** A card first: present-below shifts by one. */
  lemma CardStepPresent(c: Card, cs: seq<Option<Card>>, left: int)
    requires left >= 1
    requires PresentBelow(cs, left - 1)
    ensures PresentBelow([Some(c)] + cs, left)
    ensures AllPresent([Some(c)] + cs) <==> AllPresent(cs)
  {
    var all := [Some(c)] + cs;
    forall a | 0 < a < |all| ensures all[a] == cs[a - 1] { }
    assert all[0].Some?;
    if AllPresent(cs) {
      forall a | 0 <= a < |all| ensures all[a].Some? {
        if a > 0 { assert all[a] == cs[a - 1]; }
      }
    }
    if AllPresent(all) {
      forall a | 0 <= a < |cs| ensures cs[a].Some? {
        assert all[a + 1] == cs[a];
      }
    }
  }

  /** A card first: it came from a free slot that the rest cannot reuse. */
  lemma CardStep(g: Game, g1: Game, c: Card, g2: Game, cs: seq<Option<Card>>)
    requires Valid(g) && Valid(g1) && Valid(g2)
    requires var p := Slot(c.rank, c.suit);
             && !g.deck[p].isDealt && g1.deck == g.deck[p := c] && c == g.deck[p].(isDealt := true)
             && g1.cardsLeft == g.cardsLeft - 1
    requires PresentBelow(cs, g1.cardsLeft)
    requires AllPresent(cs) <==> g1.cardsLeft >= |cs|
    requires AllPresent(cs) ==> FreshDeal(g1, g2, cs)
    ensures PresentBelow([Some(c)] + cs, g.cardsLeft)
    ensures AllPresent([Some(c)] + cs) <==> g.cardsLeft >= |cs| + 1
    ensures AllPresent([Some(c)] + cs) ==> FreshDeal(g, g2, [Some(c)] + cs)
  {
    CardStepPresent(c, cs, g.cardsLeft);
    if AllPresent(cs) {
      CardStepFresh(g, g1, c, g2, cs);
    }
  }

  lemma CardStepFresh(g: Game, g1: Game, c: Card, g2: Game, cs: seq<Option<Card>>)
    requires Valid(g) && Valid(g1) && Valid(g2)
    requires var p := Slot(c.rank, c.suit);
             && !g.deck[p].isDealt && g1.deck == g.deck[p := c] && c == g.deck[p].(isDealt := true)
             && g1.cardsLeft == g.cardsLeft - 1
    requires AllPresent(cs) && FreshDeal(g1, g2, cs)
    ensures FreshDeal(g, g2, [Some(c)] + cs)
  {
    var all := [Some(c)] + cs;
    var p := Slot(c.rank, c.suit);
    forall a | 0 < a < |all| ensures all[a] == cs[a - 1] { }
    forall a | 0 <= a < |cs|
      ensures Slot(cs[a].value.rank, cs[a].value.suit) != p
    {
      assert g1.deck[p].isDealt;
    }
    assert DistinctSlots(all) by {
      forall a, b | 0 <= a < b < |all| && all[a].Some? && all[b].Some?
        ensures Slot(all[a].value.rank, all[a].value.suit) != Slot(all[b].value.rank, all[b].value.suit)
      {
        if a > 0 {
          assert all[a] == cs[a - 1];
        }
      }
    }
    assert AllFree(g.deck, all) by {
      forall a | 0 <= a < |all| && all[a].Some?
        ensures !g.deck[Slot(all[a].value.rank, all[a].value.suit)].isDealt
      {
        if a > 0 {
          var q := Slot(cs[a - 1].value.rank, cs[a - 1].value.suit);
          assert !g1.deck[q].isDealt;
          assert q != p;
        }
      }
    }
    SlotSetCons(c, cs);
  }

  /** The outcome of trial t: both seats scored on the board completed by the dealt cards. */
  function TrialOutcome(g: Game, rand: nat -> nat, t: nat): Outcome
    requires Valid(g)
  {
    var cs := DealCards(g, rand, t, 0, CardsToDeal(g)).1;
    var board := g.board + cs;
    Decide(EvaluateHand(g.players[0].hand, board), EvaluateHand(g.players[1].hand, board))
  }

  /** Drawing does not look at the board, and leaves it alone. */
  lemma DrawCardIgnoresBoard(g: Game, k: int, b: seq<Option<Card>>)
    requires Valid(g) && (g.cardsLeft > 0 ==> 1 <= k <= g.cardsLeft)
    ensures DrawCard(g.(board := b), k) == (DrawCard(g, k).0.(board := b), DrawCard(g, k).1)
  {
  }

  /** Dropping the last card of a prefix drops its slot, and only that one. */
  lemma SlotSetPrefix(cs: seq<Option<Card>>, m: nat)
    requires 0 < m <= |cs| && cs[m - 1].Some?
    ensures SlotSet(cs[..m]) == SlotSet(cs[..m - 1]) + {Slot(cs[m - 1].value.rank, cs[m - 1].value.suit)}
  {
    var a, b := cs[..m], cs[..m - 1];
    forall x ensures x in SlotSet(a) <==> x in SlotSet(b) || x == Slot(cs[m - 1].value.rank, cs[m - 1].value.suit) {
      if x in SlotSet(b) {
        var i :| 0 <= i < |b| && b[i].Some? && x == Slot(b[i].value.rank, b[i].value.suit);
        assert a[i] == b[i];
      }
      assert a[m - 1] == cs[m - 1];
    }
  }

  /** Two laid-out decks with the same flags are the same deck. */
  lemma SameFlagsSameDeck(d1: seq<Card>, d2: seq<Card>)
    requires Layout(d1) && Layout(d2)
    requires forall i :: 0 <= i < 52 ==> d1[i].isDealt == d2[i].isDealt
    ensures d1 == d2
  {
    forall i | 0 <= i < 52 ensures d1[i] == d2[i] { }
  }

  /**
   * The dealing half of a trial: `5 - numCommunity` calls of
   * `randDealCard`, each result appended to the board. The game reached is
   * the one `DealCards` describes, with its cards on top of the old board.
   */
  method DealBoard(g: Game, rand: nat -> nat, t: nat) returns (cur: Game)
    requires Valid(g)
    ensures var full := DealCards(g, rand, t, 0, CardsToDeal(g));
            cur == full.0.(board := g.board + full.1)
  {
    var n := CardsToDeal(g);
    ghost var full := DealCards(g, rand, t, 0, n);
    cur := g;
    ghost var dealt: seq<Option<Card>> := [];
    var k := 0;
    DealBoardStart(g, rand, t, n);
    while k < n
      invariant 0 <= k <= n
      invariant DealtSoFar(g, rand, t, n, full, cur, dealt, k)
    {
      var d := DrawOf(rand, t * 5 + k, cur.cardsLeft);
      var next, card := RandDealCard(cur, d);
      DealBoardStep(g, rand, t, n, full, cur, dealt, k);
      cur := next.(board := next.board + [card]);
      dealt := dealt + [card];
      k := k + 1;
    }
    DealBoardEnd(g, rand, t, n, full, cur, dealt);
  }

  /** Before the first draw nothing is dealt and all of the deal is to come. */
  lemma DealBoardStart(g: Game, rand: nat -> nat, t: nat, n: nat)
    requires Valid(g)
    ensures DealtSoFar(g, rand, t, n, DealCards(g, rand, t, 0, n), g, [], 0)
  {
    assert g.(board := g.board) == g;
    assert [] + DealCards(g, rand, t, 0, n).1 == DealCards(g, rand, t, 0, n).1;
  }

  /** After the last draw the board holds the whole deal on top of the old one. */
  lemma DealBoardEnd(g: Game, rand: nat -> nat, t: nat, n: nat, full: (Game, seq<Option<Card>>),
                     cur: Game, dealt: seq<Option<Card>>)
    requires DealtSoFar(g, rand, t, n, full, cur, dealt, n)
    ensures cur == full.0.(board := g.board + full.1)
  {
    assert DealCards(cur.(board := g.board), rand, t, n, n) == (cur.(board := g.board), []);
    assert dealt + [] == dealt;
  }

  /** After k draws: `cur` carries the k cards on its board, and the rest of `full` is still to come. */
  ghost predicate DealtSoFar(g: Game, rand: nat -> nat, t: nat, n: nat, full: (Game, seq<Option<Card>>),
                             cur: Game, dealt: seq<Option<Card>>, k: nat)
  {
    && Valid(cur) && cur.players == g.players
    && |dealt| == k && cur.board == g.board + dealt
    && RestToCome(g, rand, t, n, full, cur, dealt, k)
  }

  /** What `full` still deals after the k cards of `dealt`, starting from `cur` with the old board. */
  ghost predicate RestToCome(g: Game, rand: nat -> nat, t: nat, n: nat, full: (Game, seq<Option<Card>>),
                             cur: Game, dealt: seq<Option<Card>>, k: nat)
    requires Valid(cur)
  {
    var rest := DealCards(cur.(board := g.board), rand, t, k, n);
    full.0 == rest.0 && full.1 == dealt + rest.1
  }

  /** One more `randDealCard` keeps `DealtSoFar`. */
  lemma DealBoardStep(g: Game, rand: nat -> nat, t: nat, n: nat, full: (Game, seq<Option<Card>>),
                      cur: Game, dealt: seq<Option<Card>>, k: nat)
    requires k < n && DealtSoFar(g, rand, t, n, full, cur, dealt, k)
    ensures var (next, card) := DrawCard(cur, DrawOf(rand, t * 5 + k, cur.cardsLeft));
            DealtSoFar(g, rand, t, n, full, next.(board := next.board + [card]), dealt + [card], k + 1)
  {
    var (next, card) := DrawCard(cur, DrawOf(rand, t * 5 + k, cur.cardsLeft));
    RestStep(g, rand, t, n, full, cur, dealt, k);
  }

  /** One more `randDealCard` moves its card from the rest of the deal to `dealt`. */
  lemma RestStep(g: Game, rand: nat -> nat, t: nat, n: nat, full: (Game, seq<Option<Card>>),
                 cur: Game, dealt: seq<Option<Card>>, k: nat)
    requires Valid(cur) && k < n && RestToCome(g, rand, t, n, full, cur, dealt, k)
    ensures var (next, card) := DrawCard(cur, DrawOf(rand, t * 5 + k, cur.cardsLeft));
            RestToCome(g, rand, t, n, full, next.(board := next.board + [card]), dealt + [card], k + 1)
  {
    DealCardsUnfold(cur, rand, t, k, n, g.board);
    var (next, card) := DrawCard(cur, DrawOf(rand, t * 5 + k, cur.cardsLeft));
    var nx := next.(board := next.board + [card]);
    assert nx.(board := g.board) == next.(board := g.board);
    assert dealt + [card] + DealCards(nx.(board := g.board), rand, t, k + 1, n).1
           == dealt + ([card] + DealCards(nx.(board := g.board), rand, t, k + 1, n).1);
  }

  /**
   * One step of the deal on a game whose board is replaced by `b`: the
   * first card is `randDealCard`'s, the rest continue from its game.
   */
  lemma DealCardsUnfold(x: Game, rand: nat -> nat, t: nat, k: nat, n: nat, b: seq<Option<Card>>)
    requires Valid(x) && k < n
    ensures var d := DrawOf(rand, t * 5 + k, x.cardsLeft);
            var (y, c) := DrawCard(x, d);
            && DealCards(x.(board := b), rand, t, k, n).0 == DealCards(y.(board := b), rand, t, k + 1, n).0
            && DealCards(x.(board := b), rand, t, k, n).1 == [c] + DealCards(y.(board := b), rand, t, k + 1, n).1
  {
    var d := DrawOf(rand, t * 5 + k, x.cardsLeft);
    DrawCardIgnoresBoard(x, d, b);
  }

  /**
   * The undo half of a trial: remove the last `|dealt|` board cards one by
   * one, clear each one's dealt flag and add one to `cardsLeft`. A null
   * card fails with a NullPointerException; when every card is present the
   * game before the deal comes back.
   */
  method TakeBack(g: Game, cur: Game, dealt: seq<Option<Card>>) returns (r: Result<Game>)
    requires Valid(g) && Valid(cur) && cur.players == g.players
    requires cur.board == g.board + dealt
    requires PresentBelow(dealt, g.cardsLeft)
    requires AllPresent(dealt) ==> FreshDeal(g, cur.(board := g.board), dealt)
    ensures r.Err? <==> !AllPresent(dealt)
    ensures r.Err? ==> r.error == NullPointer
    ensures r.Ok? ==> r.value == g
  {
    var m := |dealt|;
    var c := cur;
    ghost var sound := AllPresent(dealt) && DistinctSlots(dealt) && AllFree(g.deck, dealt);
    while m > 0
      invariant 0 <= m <= |dealt|
      invariant c.board == g.board + dealt[..m] && c.players == g.players
      invariant m < |dealt| ==> sound
      invariant Layout(c.deck) && c.cardsLeft == Undealt(c.deck)
      invariant AllPresent(dealt) ==> sound && FlagsAdded(g.deck, c.deck, dealt[..m])
    {
      var last := c.board[|c.board| - 1];
      assert last == dealt[m - 1];
      c := c.(board := c.board[..|c.board| - 1]);
      assert c.board == g.board + dealt[..m - 1];
      if last.None? {
        assert m - 1 >= g.cardsLeft;
        return Err(NullPointer);
      }
      assert AllPresent(dealt);
      var s := Slot(last.value.rank, last.value.suit);
      UndoStep(g.deck, c.deck, dealt, m);
      UndealtAfterUpdate(c.deck, s, c.deck[s].(isDealt := false), 52);
      c := c.(deck := c.deck[s := c.deck[s].(isDealt := false)], cardsLeft := c.cardsLeft + 1);
      m := m - 1;
    }
    assert AllPresent(dealt);
    SameFlagsSameDeck(c.deck, g.deck);
    return Ok(c);
  }

  /** Taking back the top card of a fresh deal clears exactly its slot. */
  lemma UndoStep(base: seq<Card>, d: seq<Card>, dealt: seq<Option<Card>>, m: nat)
    requires Layout(base) && Layout(d)
    requires AllPresent(dealt) && DistinctSlots(dealt) && AllFree(base, dealt)
    requires 0 < m <= |dealt|
    requires FlagsAdded(base, d, dealt[..m])
    ensures var s := Slot(dealt[m - 1].value.rank, dealt[m - 1].value.suit);
            d[s].isDealt && FlagsAdded(base, d[s := d[s].(isDealt := false)], dealt[..m - 1])
  {
    var s := Slot(dealt[m - 1].value.rank, dealt[m - 1].value.suit);
    SlotSetPrefix(dealt, m);
    var pre := dealt[..m - 1];
    forall i | 0 <= i < |pre|
      ensures Slot(pre[i].value.rank, pre[i].value.suit) != s
    {
      assert pre[i] == dealt[i];
    }
  }

  /**
   * One trial of `runSim`: deal the rest of the board, score both seats,
   * take the dealt cards back. A trial that meets an empty deck fails;
   * otherwise the game is exactly as before and the outcome is the one
   * `TrialOutcome` defines.
   */
  method Trial(g: Game, rand: nat -> nat, t: nat) returns (r: Result<(Game, Outcome)>)
    requires Valid(g)
    ensures r.Err? <==> g.cardsLeft < CardsToDeal(g)
    ensures r.Err? ==> r.error == NullPointer
    ensures r.Ok? ==> r.value.0 == g && r.value.1 == TrialOutcome(g, rand, t)
  {
    ghost var full := DealCards(g, rand, t, 0, CardsToDeal(g));
    var cur := DealBoard(g, rand, t);
    var s1 := EvaluateHand(cur.players[0].hand, cur.board);
    var s2 := EvaluateHand(cur.players[1].hand, cur.board);
    var outcome := Decide(s1, s2);
    var back := TakeBack(g, cur, cur.board[|g.board|..]);
    assert cur.board[|g.board|..] == full.1;
    if back.Err? {
      return Err(back.error);
    }
    return Ok((back.value, outcome));
  }

  /** The tally of trials 0..n-1: every trial counted once, under the counter its outcome names. */
  function Outcomes(g: Game, rand: nat -> nat, n: nat): (r: Tally)
    requires Valid(g)
    ensures Total(r) == n
  {
    if n == 0 then Tally(0, 0, 0)
    else Record(Outcomes(g, rand, n - 1), TrialOutcome(g, rand, n - 1))
  }

  /**
   * `runSim`: 100 rounds of 1000 trials, trial number `i * 1000 + j`,
   * each outcome added to the tally. The game ends as it began and the
   * tally counts all 100000 trials; a deck too short for the board fails
   * the first trial.
   */
  method RunSim(g: Game, rand: nat -> nat) returns (r: Result<(Game, Tally)>)
    requires Valid(g)
    ensures r.Err? <==> g.cardsLeft < CardsToDeal(g)
    ensures r.Err? ==> r.error == NullPointer
    ensures r.Ok? ==> r.value.0 == g && r.value.1 == Outcomes(g, rand, 100 * 1000)
    ensures r.Ok? ==> Total(r.value.1) == 100000
  {
    var cur := g;
    var tally := Tally(0, 0, 0);
    ghost var done := 0;
    var i := 0;
    while i < 100
      invariant 0 <= i <= 100 && done == i * 1000
      invariant cur == g
      invariant i > 0 ==> g.cardsLeft >= CardsToDeal(g)
      invariant tally == Outcomes(g, rand, done)
    {
      var j := 0;
      while j < 1000
        invariant 0 <= j <= 1000 && done == i * 1000 + j
        invariant cur == g
        invariant done > 0 ==> g.cardsLeft >= CardsToDeal(g)
        invariant tally == Outcomes(g, rand, done)
      {
        var res := Trial(cur, rand, i * 1000 + j);
        if res.Err? {
          return Err(res.error);
        }
        OutcomesNext(g, rand, done);
        cur := res.value.0;
        tally := Record(tally, res.value.1);
        j := j + 1;
        done := done + 1;
      }
      i := i + 1;
    }
    return Ok((cur, tally));
  }

  /** One more trial adds its own outcome to the tally. */
  lemma OutcomesNext(g: Game, rand: nat -> nat, n: nat)
    requires Valid(g)
    ensures Outcomes(g, rand, n + 1) == Record(Outcomes(g, rand, n), TrialOutcome(g, rand, n))
  {
  }
}
