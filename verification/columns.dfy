/** The three columns the view controller shows side by side, one list
    view each (`todoCollectionView`, `doingCollectionView`,
    `doneCollectionView`), and `deleteFromBefore(thing:)`, which removes
    a card from the column its `state` names. */
module Columns {
  import opened Wrappers
  import opened ThingModel
  import opened ListDataSource

  /** The cards shown in each column, top to bottom. */
  datatype Board = Board(todo: seq<Thing>, doing: seq<Thing>, done: seq<Thing>)

  /** The list view whose `collectionType` is `s`. */
  function Column(b: Board, s: State): seq<Thing> {
    match s
    case Todo => b.todo
    case Doing => b.doing
    case Done => b.done
  }

  /** The board with column `s` replaced and the other two kept. */
  function WithColumn(b: Board, s: State, items: seq<Thing>): (r: Board)
    ensures Column(r, s) == items
    ensures forall c :: c != s ==> Column(r, c) == Column(b, c)
  {
    match s
    case Todo => b.(todo := items)
    case Doing => b.(doing := items)
    case Done => b.(done := items)
  }

  /** Every card in a column has that column as its `state`. */
  predicate Placed(items: seq<Thing>, s: State) {
    forall x :: x in items ==> x.state == Some(s)
  }

  /** The board is consistent: each card sits in the column its `state`
      names, and no id appears twice on the whole board. */
  predicate WellFormed(b: Board) {
    && (forall c :: Placed(Column(b, c), c) && DistinctIds(Column(b, c)))
    && (forall c, d :: c != d ==> Ids(Column(b, c)) !! Ids(Column(b, d)))
  }

  /** `deleteFromBefore(thing:)`: the column named by the card's `state`
      gets the ASSUMED `deleteDataSource`; a card without a state deletes
      nothing. Where the card actually sits on the board is not looked at. */
  function DeleteFromBefore(b: Board, thing: Thing): (r: Board)
    ensures thing.state.None? ==> r == b
    ensures forall c :: Some(c) != thing.state ==> Column(r, c) == Column(b, c)
    ensures thing.state.Some? ==>
              forall x :: x in Column(r, thing.state.value) <==>
                            x in Column(b, thing.state.value) && x.id != thing.id
  {
    match thing.state
    case Some(s) => WithColumn(b, s, AssumedDelete(Column(b, s), thing))
    case None => b
  }

  /** A card sitting in a column its `state` does not name survives
      `deleteFromBefore`, even though it is `==` to the card deleted. */
  lemma StaleStateLeavesCardBehind(b: Board, thing: Thing, c: State, x: Thing)
    requires x in Column(b, c) && Equal(x, thing)
    requires thing.state != Some(c)
    ensures x in Column(DeleteFromBefore(b, thing), c)
  {
  }

  /** On a consistent board, deleting a card whose `state` is accurate
      removes every copy of its id from the whole board and keeps the
      board consistent. */
  lemma DeleteFromBeforeClearsId(b: Board, thing: Thing)
    requires WellFormed(b)
    requires forall c :: thing.id in Ids(Column(b, c)) ==> thing.state == Some(c)
    ensures WellFormed(DeleteFromBefore(b, thing))
    ensures forall c :: thing.id !in Ids(Column(DeleteFromBefore(b, thing), c))
  {
    var r := DeleteFromBefore(b, thing);
    forall c
      ensures Placed(Column(r, c), c) && DistinctIds(Column(r, c))
      ensures thing.id !in Ids(Column(r, c))
    {
      if thing.state == Some(c) {
        DeleteKeepsDistinct(Column(b, c), thing);
        DeleteIds(Column(b, c), thing);
      }
    }
  }
}
