# Poker equity calculator core, in Dafny

This project models the core of a small Java poker equity calculator.

- **The showdown evaluator** (`HandEvaluator`). `evaluateHand` sorts a player's hole cards and the board by descending rank. It runs the category checks from straight flush down to high card, and the first check that fires decides the category. The category value and the kickers are folded into one `long` using a per-category multiplier. `describeHand` maps a score back to a category name.
- **The deck bookkeeping of `Game`.** The deck is a 52-slot array indexed by `suit * 13 + rank - 2`. Each card carries a dealt flag, and a `cardsLeft` counter tracks the undealt cards. `dealCard` deals a named card and `randDealCard` deals the k-th undealt card. The trial loop of `runSim` deals the rest of the board, compares the two seats and takes the cards back. The range-code side covers the 13×13 `pokerRangeTable`, `getRankFromChar`, `parseHandFromRangeCode` and `isHandValid`.
- **The value classes** `Card`, `Player` and `Table`.

## Layout

There is one module per file, following the program's structure.

| File | Module | Contents |
|---|---|---|
| `results.dfy` | `Results` | `Result`/`Option` and the exceptions the source throws. |
| `cards.dfy` | `Cards` | `Card`. |
| `players.dfy` | `Players` | `Player`. |
| `tables.dfy` | `Tables` | `Table`. |
| `cardlists.dfy` | `CardLists` | Sorting, suit filtering, `countRanks` and the count-map scans. |
| `straights.dfy` | `Straights` | `isStraight`, `hasAceLowStraight(Distinct)`, `checkStraight`, `checkStraightFlush`. |
| `categories.dfy` | `Categories` | The remaining category checks, the `used` marking and `addHighestUnusedCard`. |
| `kickers.dfy` | `Kickers` | What successive kicker draws add up to. |
| `evaluator.dfy` | `Evaluator` | `evaluateHand`, `describeHand`, the score bands. |
| `scoring.dfy` | `Scoring` | How two hands compare, category by category. |
| `games.dfy` | `Games` | The deck, `dealCard`, `randDealCard`. |
| `simulation.dfy` | `Simulation` | The trial loop and tallies of `runSim`. |
| `ranges.dfy` | `Ranges` | The range table and range-code parsing. |

Java exceptions become the `Err` case of a `Result`.

Randomness is a parameter. `Math.random()` is replaced by an oracle `rand: nat -> nat`, and draw number n uses `rand(n) % cardsLeft + 1`. That covers exactly the values `(int) (Math.random() * cardsLeft) + 1` can take.

The game object is an immutable `Game` value, and each mutating Java method returns the new value. `Games.Valid` is the object invariant, which every operation keeps:
- the deck layout holds;
- `cardsLeft` equals the number of undealt slots.

The evaluator's score is modelled as an unbounded integer. `Evaluator.EvaluateHand` proves the score never exceeds the largest Java `long`, so no wrap-around has to be modelled.

## Model

| member | source | states |
|---|---|---|
| Cards.NewCard | src/Card.java:6-12 | Succeeds exactly when rank is in 2..14 and suit in 0..3. A bad rank throws the rank message. A bad suit with a good rank throws the suit message. A new card has the given face and is undealt. |
| Cards.ToString | src/Card.java:14-19 | Two characters: the rank glyph ('T', 'J', 'Q', 'K', 'A' above 9), then the suit glyph. |
| Cards.ToStringInjective | src/Card.java:14-19 | Two cards render the same exactly when they have the same rank and suit. |
| Players.NewPlayer | src/Player.java:5-8 | A new player has the given name and both hand slots empty. |
| Players.AddCardToHand | src/Player.java:10-19 | Throws IllegalStateException exactly when both slots are full, and the player is then unchanged. Otherwise the card goes into the first empty slot, marked dealt, and the other slot and the name stay. |
| Players.TwoCardsThenFull | src/Player.java:10-19 | Two adds to a new player fill slot 0, then slot 1, both dealt. A third add is refused. |
| Tables.NewTable | src/Table.java:8-11 | A new table has no players and no community cards. |
| Tables.AddPlayer | src/Table.java:13-15 | Exactly one player is appended at the end; earlier players and the board are unchanged. |
| Tables.SetCommunityCards | src/Table.java:17-20 | More than five cards throws and changes nothing. Otherwise the board becomes an element-wise equal copy and the players stay. |
| Tables.BoardStaysSmall | src/Table.java:17-20 | From a board of at most five cards, any sequence of addPlayer/setCommunityCards calls keeps it at most five. |
| Tables.NewTableBoardStaysSmall | src/Table.java:8-20 | A table built by the constructor never shows more than five community cards, whatever calls follow. |
| CardLists.InsertByRank | src/HandEvaluator.java:34 | Inserting into a rank-descending list keeps it rank-descending. The result is the old cards plus the new one, as a multiset. |
| CardLists.SortByRank | src/HandEvaluator.java:34 | The sort yields a rank-descending permutation of its input. |
| CardLists.SuitCards | src/HandEvaluator.java:134-139 | Filtering by suit keeps only cards of that suit and keeps rank-descending order, so the source's re-sort changes nothing. |
| CardLists.SuitCardsMembers | src/HandEvaluator.java:340-345 | A card is in the filtered list exactly when it is in the hand and of that suit. |
| CardLists.CountRanks | src/HandEvaluator.java:545-553 | The map's keys are exactly the ranks present, and each maps to its number of occurrences. |
| CardLists.HighestWithCount | src/HandEvaluator.java:266-273 | The "keep the largest" scan returns a rank held often enough, and no higher eligible rank is held that often; 0 when none is. |
| CardLists.LowestWithCount | src/HandEvaluator.java:239-252 | The "return the first entry" scan, in HashMap's ascending key order, returns the lowest rank held exactly the given number of times; 0 when none is. |
| CardLists.SumFirst | src/HandEvaluator.java:529-540 | The sum of the first n ranks lies between 2 and 14 times the number of ranks summed. |
| CardLists.SumFirstIsTotal | src/HandEvaluator.java:529-540 | Summing the first n ranks gives the total of the first n entries, or of all of them when there are fewer. |
| Straights.AceLowFlags | src/HandEvaluator.java:216-228 | Each of the five flags is set exactly when its rank (A, 2, 3, 4, 5) occurs in the scanned part. |
| Straights.HasAceLowStraight | src/HandEvaluator.java:215-231 | True exactly when ace, 2, 3, 4 and 5 all occur. This also covers hasAceLowStraightDistinct at src/HandEvaluator.java:399-415, whose body is identical. |
| Straights.ScanCorrect | src/HandEvaluator.java:193-209 | From any state satisfying the loop invariant, the scan's answer is whether five consecutive ranks occur. |
| Straights.IsStraightIff | src/HandEvaluator.java:190-210 | On a rank-descending list, isStraight holds exactly when five distinct consecutive ranks occur (duplicates are skipped; fewer than five cards give false). |
| Straights.DistinctRanks | src/HandEvaluator.java:369-377 | The deduplicated list holds exactly the hand's ranks and is strictly descending. |
| Straights.CheckStraight | src/HandEvaluator.java:367-394 | 0 exactly when there is neither a run of five nor A-2-3-4-5. With a run it returns the top of the highest run. With only the wheel it returns 5. The result is 0 or in 5..14. |
| Straights.CheckStraightFacts | src/HandEvaluator.java:380-386 | Where the scan stops there is a run topped by the rank found. Every run in the hand tops out at or below that rank. If the scan finds nothing there is no run. |
| Straights.SuitStraightFlush | src/HandEvaluator.java:142-181 | For one suit: 0 exactly when fewer than five cards or neither run nor wheel. A run gives the suit's top card minus 4 (not the run's top). Only the wheel gives 1. The value lies in 0..10. |
| Straights.SuitStraightFlushFacts | src/HandEvaluator.java:150-167 | isStraight fires on some tail exactly when the suit has a run, and then always on the first tail. The `A` followed by `5` branch is unreachable. |
| Straights.SuitValue | src/HandEvaluator.java:132-181 | A suit's value is nonzero exactly when that suit holds five consecutive ranks or A-2-3-4-5. |
| Straights.StraightFlushFrom | src/HandEvaluator.java:132-184 | The suit loop returns 0 exactly when no suit from s on qualifies. Otherwise it returns the value of the first qualifying suit. |
| Straights.CheckStraightFlush | src/HandEvaluator.java:130-185 | 0 exactly when no suit qualifies; otherwise the value of the first qualifying suit, in 1..10. |
| Straights.CheckStraightFlushSuits | src/HandEvaluator.java:130-185 | 0 exactly when no suit holds a straight flush. Otherwise the value comes from the lowest-indexed suit that holds one. |
| Categories.HighestHeld | src/HandEvaluator.java:425-432 | The highest rank (other than the excluded one) held at least k times, with no higher such rank; 0 when none. |
| Categories.CheckFourOfAKind | src/HandEvaluator.java:236-255 | 0 exactly when no rank is held exactly four times. Otherwise the lowest such rank, following HashMap's ascending iteration. |
| Categories.CheckFullHouse | src/HandEvaluator.java:260-313 | 0 exactly when there is no trips rank plus a different rank held twice. Otherwise trips * 14 + pair: the highest rank held three or more times and the highest other rank held twice or more. |
| Categories.FlushSuitFrom | src/HandEvaluator.java:326-333 | The first suit from s on holding five or more cards; no earlier suit does. |
| Categories.CheckFlush | src/HandEvaluator.java:318-362 | 0 exactly when no suit holds five cards. Otherwise the plain sum of the five highest ranks of the lowest-indexed such suit, in 10..70. |
| Categories.CountFromZero | src/HandEvaluator.java:281-286 | When no occurrence is counted from a position, no later position holds that rank. |
| Categories.MarkRank | src/HandEvaluator.java:279-286 | The marking loop only adds marks, only on positions holding the rank. When the rank occurs no more than the limit, it marks all of them. |
| Categories.AddHighestUnusedCard | src/HandEvaluator.java:558-566 | Returns the rank at the first unused position and marks only that position. Returns 0 exactly when every position is used. |
| Categories.CheckThreeOfAKind | src/HandEvaluator.java:420-448 | 0 exactly when no rank is held three times. Otherwise the highest rank held three or more times. |
| Categories.CheckTwoPair | src/HandEvaluator.java:453-491 | 0 exactly when fewer than two ranks are paired. Otherwise high * 14 + low from the two highest paired ranks, high above low. |
| Categories.CheckOnePair | src/HandEvaluator.java:496-524 | 0 exactly when no rank is paired. Otherwise the highest paired rank. |
| Categories.CheckHighCard | src/HandEvaluator.java:529-540 | The plain sum of the (at most five) highest ranks, between 0 and 70. |
| Kickers.Without | src/HandEvaluator.java:558-566 | The ranks outside the dropped set, in order, keeping range and descending order. |
| Kickers.DrawTakesHead | src/HandEvaluator.java:558-566 | One addHighestUnusedCard takes the head of the unused ranks and leaves exactly the tail unused. |
| Kickers.Draw | src/HandEvaluator.java:92-93 | n successive kicker draws sum the first n unused ranks. |
| Kickers.UnusedIsWithout | src/HandEvaluator.java:558-566 | When exactly the positions of a rank set are marked, the unused ranks are the hand's ranks outside that set. |
| Kickers.CountFromIsCount | src/HandEvaluator.java:440-445 | The marking loop's count from position i equals the number of occurrences in the rest of the list. |
| Kickers.MarkRankExact | src/HandEvaluator.java:438-445 | Marking a rank held no more than the limit marks exactly that rank's positions on top of the earlier marks. |
| Evaluator.CategoryDominance | src/HandEvaluator.java:43-124 | Every score band of a weaker category lies strictly below every band of a stronger one. |
| Evaluator.DrawAfterMarking | src/HandEvaluator.java:52-55 | After marking all cards of the made rank, the kicker draws sum the highest ranks outside that rank. |
| Evaluator.DrawAfterTwoPairs | src/HandEvaluator.java:102-106 | After marking both pairs, the kicker is the highest rank outside the two pair ranks. |
| Evaluator.ChainIsCategoryOf | src/HandEvaluator.java:43-124 | The first check that fires names the category the rank counts and suits call for (straight flush, quads, full house, flush, straight, trips, two pair, pair, high card). |
| Evaluator.FromFullHouse | src/HandEvaluator.java:61-124 | With no straight flush or quads, the rest of the chain yields the right category and a score that lies in its band, made from that category's value and kickers. |
| Evaluator.FromTrips | src/HandEvaluator.java:88-124 | With nothing above trips, the rest of the chain yields the right category and a score that lies in its band, made from that category's value and kickers. |
| Evaluator.Analyse | src/HandEvaluator.java:42-124 | On a rank-descending hand: the category is the one the hand's counts and suits call for, and the score lies in that category's band, composed from its value and kickers. |
| Evaluator.Present | src/HandEvaluator.java:19-31 | Null entries are dropped; exactly the present cards remain. |
| Evaluator.Combined | src/HandEvaluator.java:17-34 | Hole cards and board, nulls dropped, as a rank-descending permutation. |
| Evaluator.EvaluateHand | src/HandEvaluator.java:17-125 | The score is non-negative and fits a Java long. It lies in the band of the category the cards call for, made of that category's value and kickers. describeHand of it names that category. |
| Evaluator.BandFitsLong | src/HandEvaluator.java:43-124 | Every category's band lies between 0 and 2^63 - 1. |
| Evaluator.DescribeInBand | src/HandEvaluator.java:571-591 | Every score in a category's band is described by that category's name. |
| Scoring.StrongerCategoryScoresHigher | src/HandEvaluator.java:43-124 | A hand of a stronger category scores strictly higher than any hand of a weaker one. |
| Scoring.FullHouseOrder | src/HandEvaluator.java:62-65 | Full houses order lexicographically by (trips rank, pair rank). |
| Scoring.FourOfAKindOrder | src/HandEvaluator.java:52-56 | Four of a kinds order by the quad rank, then the kicker. |
| Scoring.StraightOrder | src/HandEvaluator.java:80-83 | Straights order by their top card, the wheel counting as five high. |
| Scoring.StraightFlushOrder | src/HandEvaluator.java:43-46 | Straight flushes order by the value of the first qualifying suit. |
| Scoring.FlushOrder | src/HandEvaluator.java:71-74 | Flushes order by the plain sum of the five top flush ranks, so different kicker sets can tie. |
| Scoring.FlushTie | src/HandEvaluator.java:71-74 | An ace-high and a king-high flush with different ranks but the same rank total get the same score. |
| Scoring.HighCardTie | src/HandEvaluator.java:529-540 | Two high card hands with different ranks but the same rank total get the same score. |
| Scoring.ThreeOfAKindScore | src/HandEvaluator.java:89-95 | A trips score is trips * 10^6 plus the sum of the two highest other ranks. |
| Scoring.ThreeOfAKindOrder | src/HandEvaluator.java:89-95 | Three of a kinds order by trips rank, then by the sum of the two kickers. |
| Scoring.TwoPairScore | src/HandEvaluator.java:102-106 | A two-pair score is (high * 14 + low) * 1000 plus the highest rank outside both pairs. |
| Scoring.TwoPairOrder | src/HandEvaluator.java:102-106 | Two pairs order lexicographically by (high pair, low pair, kicker). |
| Scoring.OnePairOrder | src/HandEvaluator.java:113-120 | One pairs order by pair rank, then by the sum of the three kickers. |
| Games.Slot | src/Game.java:302-304 | A card's slot is in 0..51 and gives back its rank (slot mod 13 + 2) and its suit (slot div 13). |
| Games.SlotOfDeckCard | src/Game.java:26-32 | Under the constructor's layout, every card's face leads back to its own slot. |
| Games.UndealtAfterUpdate | src/Game.java:307-309 | Replacing one slot changes the undealt count only by that slot's own change. |
| Games.NewGame | src/Game.java:26-38 | Every slot holds the undealt card of its rank and suit, cardsLeft is 52, the board is empty, and the seats are "Clifford" and "Cody". The invariant holds. |
| Games.DealCard | src/Game.java:302-314 | An index outside the deck throws. A dealt card gives null and changes nothing. An undealt card is marked dealt, cardsLeft drops by one, and it is returned. The invariant is kept either way. |
| Games.AddCommunityCard | src/Game.java:417-419 | Appends what dealCard returns, null included, and keeps the invariant. |
| Games.KthUndealt | src/Game.java:391-396 | The k-th undealt slot in deck order: undealt, with exactly k - 1 undealt slots before it. -1 exactly when k is 0 or exceeds the undealt count. |
| Games.KthUndealtUnique | src/Game.java:391-399 | Only one slot is undealt with exactly k - 1 undealt slots before it. |
| Games.DrawCard | src/Game.java:379-406 | Null exactly when cardsLeft is 0, with nothing changed. Otherwise it deals the k-th undealt card, which was undealt before and is dealt after, and cardsLeft drops by one. |
| Games.RandDealCard | src/Game.java:379-406 | The do-while scan deals exactly the card DrawCard describes. |
| Simulation.Decide | src/Game.java:58-64 | Player one wins exactly when its strength is higher, player two exactly when lower, a tie exactly when equal. |
| Simulation.Record | src/Game.java:58-64 | Exactly one counter goes up by one, the one the outcome names. |
| Simulation.DrawOf | src/Game.java:388 | The draw lies in 1..cardsLeft whenever cards are left. |
| Simulation.DealCards | src/Game.java:52-55 | Successive randDealCard calls. A card is present exactly while the deck still had one. When all are present they were free, sit in distinct slots, and are exactly the slots newly dealt, with cardsLeft lowered by their number. |
| Simulation.DealBoard | src/Game.java:52-55 | The dealing loop appends 5 - numCommunity cards to the board and reaches the game DealCards describes. |
| Simulation.TakeBack | src/Game.java:67-70 | The undo loop fails with a NullPointerException exactly when a dealt card was null. Otherwise it restores the game to its pre-trial state. |
| Simulation.UndoStep | src/Game.java:67-70 | Taking back the top card of a fresh deal clears exactly its slot. |
| Simulation.Trial | src/Game.java:52-70 | A trial fails exactly when the deck holds fewer cards than the board needs. Otherwise deck, cardsLeft and board end as before, and the outcome compares the two seats' scores. |
| Simulation.Outcomes | src/Game.java:50-71 | The tally of n trials counts n outcomes. |
| Simulation.OutcomesNext | src/Game.java:58-64 | One more trial adds its own outcome to the tally. |
| Simulation.RunSim | src/Game.java:40-84 | 100 × 1000 trials. A deck too short for the board fails, and otherwise the game ends as it began. The three counters hold the trials' outcomes and sum to 100000. |
| Ranges.GetRankFromChar | src/Game.java:265-283 | Succeeds exactly on the rank characters, mapping each to the rank it renders. Any other character throws with the character named. |
| Ranges.RankCharRoundTrip | src/Game.java:265-283 | Every rank's character decodes back to that rank. |
| Ranges.GetRankFromCharInjective | src/Game.java:265-283 | Two characters decoding to the same rank are the same character. |
| Ranges.RangeTableLayout | src/Game.java:9-23 | The table is 13×13 and each cell holds the code for its row and column ranks. |
| Ranges.RangeTableCodes | src/Game.java:9-23 | The diagonal holds two-character pairs. Cells above it end in 's' and cells below in 'o'. The first rank is never below the second. |
| Ranges.RangeTableDecodes | src/Game.java:9-23 | Every cell decodes to ranks 14 - min(i, j) and 14 - max(i, j), and is suited exactly above the diagonal. |
| Ranges.DecodeRangeCode | src/Game.java:213-216 | Fails exactly when a character is missing or not a rank character. Otherwise it yields both ranks and whether the code is three characters ending in 's'. |
| Ranges.DealFace | src/Game.java:302-314 | dealCard on a valid face: a card exactly when the slot was free. Null changes nothing. The invariant is kept. |
| Ranges.TryPairs | src/Game.java:219-231 | The suit loops as written. Flags are only ever set and the invariant is kept. A returned hand is an eligible combination that was free before and is dealt after. |
| Ranges.ParseHandFromRangeCode | src/Game.java:210-236 | A code that does not decode gives null with nothing dealt. A returned hand has the code's ranks and is suited exactly when the code says so. Both cards were free before and are dealt after. |
| Ranges.SuitedFirstFree | src/Game.java:219-231 | For a suited code of two different ranks, the loops as written return a hand exactly when some suit has both cards free, and then the lowest such suit. |
| Ranges.AllTakenNull | src/Game.java:219-231 | With every card of both ranks taken, the loops deal nothing and return null. |
| Ranges.TryPairsChecked | src/Game.java:219-231 | With the leak closed: a hand exactly when some eligible combination is free, namely the first in loop order. Exactly its two cards are dealt, and cardsLeft drops by two. Null leaves the game unchanged. |
| Ranges.ParseHandChecked | src/Game.java:210-236 | With the leak closed: a hand exactly when the code decodes and an eligible combination is free. Null leaves the game unchanged. |
| Ranges.OffsuitLeak | src/Game.java:219-231 | On a deck where only the ace of hearts and king of diamonds remain among aces and kings, "AKo" returns null as written although that pair is free. The checked loops return it. |
| Ranges.IsHandValid | src/Game.java:246-257 | True exactly when no card of the hand is among my hand's cards or the board's. |

## Left out

- src/EquityCalculatorGUI.java: Swing interface and background thread; no logic of the core lives there.
- Console I/O of `Game` (`run`, `promptForCard`, `getValidIntInput`, both `displayState` overloads, `main`) and `Table.displayState`, `Player.toString`: stdout and Scanner plumbing.
- `rangeSim`: its result is an average of floating-point percentages over range cells. Its integer building blocks (`parseHandFromRangeCode`, `isHandValid`, the trial) are modelled.
- `getPlayers`: a plain accessor.
- The `double` percentages of `runSim` (src/Game.java:72-78): floating point. The model returns the integer tallies they are computed from.
- `Math.random()`: its distribution and the convergence of the equities are not modelled. The draw is an oracle parameter.
- `Ranges.IsHandValid`: generic over the element type with value equality. `Card` declares no `equals`, so the source's `HashSet` compares card objects by identity, and the model leaves that choice to the element type.
- `Simulation.Trial`: the source calls `getHand()` and `setDealt(false)`, which `Player` and `Card` as given do not declare. They are modelled as the `hand` field and `isDealt := false`.
- `Games.DrawCard`: the final `return null` of `randDealCard` (src/Game.java:405) is unreachable in every state, because after the do-while `i` always lies in 1..52, so the model has no path for it. What the `Valid` precondition excludes is a `cardsLeft` that overstates the number of undealt cards: there the source's scan runs to the end and deals `deck[51]` even when it is already dealt (src/Game.java:396-402); the model does not describe that state.
- `Evaluator.EvaluateHand`: a three-of-a-kind score is taken apart into trips and kickers only when the trips rank is held exactly three times. With more copies of one rank than a deck holds, the kicker draw skips only the first three, and that case is only bounded by its band.
- `Evaluator.Analyse`: the `used` marks of the straight flush, full house, flush and straight checks are not modelled. No kicker is drawn after those checks, and `used` is cleared before the next check.
- `CardLists.SuitCards`: the re-sorts of `sameSuit`, `flushCards` and `checkHighCard` are left out, because a stable sort of an already rank-descending list returns it unchanged.
- `Simulation.TakeBack`: after a NullPointerException the source leaves a partly restored game behind. The model reports the error and does not describe that state.

## Findings

| source | as written | input that shows it | evidently intended | confidence | as-written member | corrected member |
|---|---|---|---|---|---|---|
| src/Game.java:219-231 | Each attempt deals card1 and card2 before checking that both are free. So a failed attempt leaves one card dealt, with `cardsLeft` lowered, in no hand. | Code "AKo" on a deck where, of the aces and kings, only the ace of hearts and the king of diamonds are free. Attempt (spades, diamonds) deals the king of diamonds and attempt (hearts, spades) deals the ace of hearts. When (hearts, diamonds) comes up both are gone, so the result is null although that pair was free. | Return the first free eligible combination, and deal nothing when an attempt fails. | not executed | Ranges.OffsuitLeak | Ranges.TryPairsChecked |
