/** The table value class (src/Table.java): seated players and the board. */
module Tables {
  import opened Results
  import opened Cards
  import opened Players

  datatype Table = Table(players: seq<Player>, communityCards: seq<Option<Card>>)

  /** The board never holds more than five cards. */
  predicate BoardFits(t: Table) {
    |t.communityCards| <= 5
  }

  /** The constructor: no players, no community cards. */
  function NewTable(): (t: Table)
    ensures |t.players| == 0 && |t.communityCards| == 0
  {
    Table([], [])
  }

  /** `addPlayer`: one player more at the end, the board unchanged. */
  function AddPlayer(t: Table, p: Player): (r: Table)
    ensures |r.players| == |t.players| + 1 && r.players[|t.players|] == p
    ensures r.players[..|t.players|] == t.players
    ensures r.communityCards == t.communityCards
  {
    t.(players := t.players + [p])
  }

  /** `setCommunityCards`: more than five cards throw; otherwise the board becomes a copy. */
  function SetCommunityCards(t: Table, cards: seq<Option<Card>>): (r: Result<Table>)
    ensures r.Err? <==> |cards| > 5
    ensures r.Err? ==> r.error == IllegalArgument("Too many community cards")
    ensures r.Ok? ==> r.value.players == t.players && |r.value.communityCards| == |cards|
    ensures r.Ok? ==> forall i :: 0 <= i < |cards| ==> r.value.communityCards[i] == cards[i]
  {
    if |cards| > 5 then Err(IllegalArgument("Too many community cards")) else Ok(t.(communityCards := cards))
  }

  /** The operations a caller can apply to a table. */
  datatype TableOp = SeatPlayer(p: Player) | SetBoard(cards: seq<Option<Card>>)

  /** Applies the operations in order; a throwing call leaves the table as it was. */
  function ApplyAll(t: Table, ops: seq<TableOp>): Table
    decreases |ops|
  {
    if |ops| == 0 then t
    else
      var next := match ops[0]
        case SeatPlayer(p) => AddPlayer(t, p)
        case SetBoard(cards) => (var r := SetCommunityCards(t, cards); if r.Ok? then r.value else t);
      ApplyAll(next, ops[1..])
  }

  /** From any table whose board holds at most five cards, whatever calls are made, the board stays within five cards. */
  lemma {:induction false} BoardStaysSmall(t: Table, ops: seq<TableOp>)
    requires BoardFits(t)
    ensures BoardFits(ApplyAll(t, ops))
    decreases |ops|
  {
    if |ops| > 0 {
      var next := match ops[0]
        case SeatPlayer(p) => AddPlayer(t, p)
        case SetBoard(cards) => (var r := SetCommunityCards(t, cards); if r.Ok? then r.value else t);
      BoardStaysSmall(next, ops[1..]);
    }
  }

  /** The board of a new table stays within five cards under any calls. */
  lemma NewTableBoardStaysSmall(ops: seq<TableOp>)
    ensures BoardFits(ApplyAll(NewTable(), ops))
  {
    BoardStaysSmall(NewTable(), ops);
  }
}
