/** The view controller's drop delegate: the proposal it makes while a
    drop session hovers over a list view, and what a completed drop does
    to the board — resolve the destination row, take the first dropped
    card, delete it from the column its `state` names, set its `state` to
    the target column, and insert it there. */
module DropDelegate {
  import opened Wrappers
  import opened ThingModel
  import opened ThingCoding
  import opened ListDataSource
  import opened Columns

  datatype DropOperation = Cancel | Forbidden | Copy | Move

  datatype DropIntent = Unspecified | InsertAtDestinationIndexPath | InsertIntoDestinationIndexPath

  /** `UICollectionViewDropProposal`; one built from an operation alone
      has the intent `.unspecified`. */
  datatype DropProposal = DropProposal(operation: DropOperation, intent: DropIntent)

  /** `collectionView(_:dropSessionDidUpdate:withDestinationIndexPath:)`:
      a session carrying anything but exactly one item is cancelled;
      one item is proposed as a move when the drag started in this
      collection view and as a copy otherwise, always inserted at the
      destination index path. The proposal is only feedback while the drag
      hovers: whatever it says, a completed drop deletes the card from the
      column its `state` names and inserts it (`PerformDrop`). */
  function ProposalForUpdate(sessionItemCount: nat, hasActiveDrag: bool): (p: DropProposal)
    ensures p.operation == Cancel <==> sessionItemCount != 1
    ensures p.operation == Move <==> sessionItemCount == 1 && hasActiveDrag
    ensures p.operation == Copy <==> sessionItemCount == 1 && !hasActiveDrag
    ensures p.operation != Forbidden
    ensures p.intent == InsertAtDestinationIndexPath <==> p.operation != Cancel
    ensures p.intent == Unspecified <==> p.operation == Cancel
  {
    if sessionItemCount != 1 then DropProposal(Cancel, Unspecified)
    else if hasActiveDrag then DropProposal(Move, InsertAtDestinationIndexPath)
    else DropProposal(Copy, InsertAtDestinationIndexPath)
  }

  datatype IndexPath = IndexPath(row: nat, section: nat)

  /** The destination of a drop: the coordinator's index path when it has
      one, otherwise the row just past the last item of the last section.
      With no index path and no section the app would ask for the items of
      section -1, so a caller must not let that happen. */
  function ResolveDestination(given: Option<IndexPath>, sectionItemCounts: seq<nat>): (d: IndexPath)
    requires given.Some? || |sectionItemCounts| > 0
    ensures given.Some? ==> d == given.value
    ensures given.None? ==> d.section == |sectionItemCounts| - 1
    ensures given.None? ==> d.row == sectionItemCounts[d.section]
  {
    if given.Some? then given.value
    else
      var section := |sectionItemCounts| - 1;
      IndexPath(sectionItemCounts[section], section)
  }

  /** ASSUMED: a list view shows its column as a single section, so
      `numberOfSections` is 1 and that section holds the column's cards. */
  function AssumedSectionItemCounts(b: Board, s: State): (counts: seq<nat>)
    ensures |counts| == 1 && counts[0] == |Column(b, s)|
  {
    [|Column(b, s)|]
  }

  /** The collection view a drop lands on: one of the three list views,
      known by its `collectionType`, or some other collection view. */
  datatype DropTarget = ListCollectionView(collectionType: State) | OtherCollectionView

  /** What `loadObjects(ofClass: Thing.self)` hands its completion: a list
      that casts to `[Thing]`, or one that does not. */
  datatype LoadedItems = Things(things: seq<Thing>) | NotThings

  /** The assumed insert was asked for a row past the end of the column. */
  datatype DropError = RowPastEnd(row: nat, count: nat)

  /** The three steps of a completed drop, in order: `deleteFromBefore`,
      `thing.state = collectionType`, then the ASSUMED `reorderDataSource`
      at `row`. */
  function MoveThing(b: Board, thing: Thing, s: State, row: nat): (r: Result<Board, DropError>)
    ensures r.Success? <==> row <= |Column(DeleteFromBefore(b, thing), s)|
    ensures r.Failure? ==> r.error == RowPastEnd(row, |Column(DeleteFromBefore(b, thing), s)|)
    ensures r.Success? ==> row < |Column(r.value, s)| && Column(r.value, s)[row] == thing.(state := Some(s))
    ensures r.Success? ==>
              forall x :: x in Column(r.value, s) <==>
                            x == thing.(state := Some(s)) ||
                            (x in Column(b, s) && (thing.state == Some(s) ==> x.id != thing.id))
    ensures r.Success? ==>
              forall c :: c != s && Some(c) != thing.state ==> Column(r.value, c) == Column(b, c)
    ensures r.Success? ==>
              forall c, x :: c != s && Some(c) == thing.state ==>
                               (x in Column(r.value, c) <==> x in Column(b, c) && x.id != thing.id)
  {
    var before := DeleteFromBefore(b, thing);
    var moved := thing.(state := Some(s));
    var column := AssumedInsert(Column(before, s), row, moved);
    if column.None? then Failure(RowPastEnd(row, |Column(before, s)|))
    else Success(WithColumn(before, s, column.value))
  }

  /** `collectionView(_:performDropWith:)`. A drop on anything but a list
      view, or whose loaded items are not cards or are none, leaves the
      board as it was; otherwise the first card is moved to the target
      column at the resolved row. The destination is resolved on the board
      as it is when the drop is performed. */
  function PerformDrop(b: Board, target: DropTarget, destination: Option<IndexPath>,
                       loaded: LoadedItems): (r: Result<Board, DropError>)
    ensures target.OtherCollectionView? ==> r == Success(b)
    ensures loaded.NotThings? || loaded.things == [] ==> r == Success(b)
    ensures target.ListCollectionView? && loaded.Things? && loaded.things != [] ==>
              var s := target.collectionType;
              var row := if destination.Some? then destination.value.row else |Column(b, s)|;
              r == MoveThing(b, loaded.things[0], s, row)
    ensures target.ListCollectionView? && loaded.Things? && loaded.things != [] && r.Success? ==>
              var s := target.collectionType;
              var row := if destination.Some? then destination.value.row else |Column(b, s)|;
              row < |Column(r.value, s)| &&
              Column(r.value, s)[row] == loaded.things[0].(state := Some(s)) &&
              Column(r.value, s)[row].state == Some(s)
  {
    match target
    case OtherCollectionView => Success(b)
    case ListCollectionView(s) =>
      var destinationIndexPath := ResolveDestination(destination, AssumedSectionItemCounts(b, s));
      if loaded.NotThings? || loaded.things == [] then Success(b)
      else MoveThing(b, loaded.things[0], s, destinationIndexPath.row)
  }

  /** A card whose `state` is accurate: no column but the one it names
      holds its id. */
  predicate Accurate(b: Board, thing: Thing) {
    forall c :: thing.id in Ids(Column(b, c)) ==> thing.state == Some(c)
  }

  /** On a consistent board every card is accurate. */
  lemma BoardCardsAreAccurate(b: Board, c: State, i: nat)
    requires WellFormed(b) && i < |Column(b, c)|
    ensures Accurate(b, Column(b, c)[i])
  {
    var x := Column(b, c)[i];
    assert x in Column(b, c);
    assert x.id in Ids(Column(b, c));
  }

  /** Moving an accurate card keeps the board consistent, and afterwards
      its id is found in the target column and in no other. */
  lemma MoveKeepsBoardWellFormed(b: Board, thing: Thing, s: State, row: nat)
    requires WellFormed(b) && Accurate(b, thing)
    requires MoveThing(b, thing, s, row).Success?
    ensures WellFormed(MoveThing(b, thing, s, row).value)
    ensures forall c :: thing.id in Ids(Column(MoveThing(b, thing, s, row).value, c)) <==> c == s
  {
    var before := DeleteFromBefore(b, thing);
    DeleteFromBeforeClearsId(b, thing);
    var moved := thing.(state := Some(s));
    var r := MoveThing(b, thing, s, row).value;
    InsertKeepsDistinct(Column(before, s), row, moved);
    assert Column(r, s) == AssumedInsert(Column(before, s), row, moved).value;
    forall c
      ensures Placed(Column(r, c), c) && DistinctIds(Column(r, c))
    {
    }
    forall c, d | c != d
      ensures Ids(Column(r, c)) !! Ids(Column(r, d))
    {
    }
  }

  /** Dragging a card off a consistent board and dropping it on a list
      view: the card travels through the item provider unchanged, and a
      drop that completes leaves the board consistent, with the card's id
      in the target column alone. */
  lemma DragAndDropKeepsBoardWellFormed(
    b: Board, c: State, i: nat, s: State,
    destination: Option<IndexPath>, typeIdentifier: string)
    requires WellFormed(b) && i < |Column(b, c)|
    requires typeIdentifier in WritableTypeIdentifiers
    ensures
      var card := Column(b, c)[i];
      var dropped := ObjectWithItemProviderData(ItemProviderData(card, typeIdentifier), typeIdentifier);
      var r := PerformDrop(b, ListCollectionView(s), destination, Things([dropped]));
      dropped == card &&
      (r.Success? ==> WellFormed(r.value) &&
                      forall d :: card.id in Ids(Column(r.value, d)) <==> d == s)
  {
    var card := Column(b, c)[i];
    ProviderRoundTrip(card, typeIdentifier);
    var dropped := ObjectWithItemProviderData(ItemProviderData(card, typeIdentifier), typeIdentifier);
    assert dropped == card;
    BoardCardsAreAccurate(b, c, i);
    var row := ResolveDestination(destination, AssumedSectionItemCounts(b, s)).row;
    var r := PerformDrop(b, ListCollectionView(s), destination, Things([dropped]));
    assert r == MoveThing(b, card, s, row);
    if r.Success? {
      MoveKeepsBoardWellFormed(b, card, s, row);
    }
  }

  /** Moving a card of a consistent board to another column takes exactly
      that entry out of its column, puts it, with its new state, at `row`
      of the target, and leaves the third column alone. */
  lemma CrossColumnMove(b: Board, c: State, i: nat, s: State, row: nat)
    requires WellFormed(b) && i < |Column(b, c)| && c != s && row <= |Column(b, s)|
    ensures
      var card := Column(b, c)[i];
      var r := MoveThing(b, card, s, row);
      r.Success? &&
      Column(r.value, c) == Column(b, c)[..i] + Column(b, c)[i + 1..] &&
      Column(r.value, s) == Column(b, s)[..row] + [card.(state := Some(s))] + Column(b, s)[row..] &&
      forall d :: d != c && d != s ==> Column(r.value, d) == Column(b, d)
  {
    var card := Column(b, c)[i];
    assert card in Column(b, c);
    OnlyOneHasId(Column(b, c), i);
    DeleteRemovesOne(Column(b, c), i, card);
  }

  /** Dropping a card back into its own column at an existing row only
      reorders that column: its cards are the same, and the other two
      columns are untouched. */
  lemma SameColumnReorder(b: Board, s: State, i: nat, row: nat)
    requires WellFormed(b) && i < |Column(b, s)| && row < |Column(b, s)|
    ensures
      var card := Column(b, s)[i];
      var rest := Column(b, s)[..i] + Column(b, s)[i + 1..];
      var r := MoveThing(b, card, s, row);
      r.Success? &&
      Column(r.value, s) == rest[..row] + [card] + rest[row..] &&
      multiset(Column(r.value, s)) == multiset(Column(b, s)) &&
      forall d :: d != s ==> Column(r.value, d) == Column(b, d)
  {
    var items := Column(b, s);
    var card := items[i];
    assert card in items;
    assert card.(state := Some(s)) == card;
    OnlyOneHasId(items, i);
    DeleteRemovesOne(items, i, card);
    var rest := items[..i] + items[i + 1..];
    assert Column(DeleteFromBefore(b, card), s) == rest;
    var r := MoveThing(b, card, s, row);
    assert r.Success?;
    assert Column(r.value, s) == AssumedInsert(rest, row, card).value;
    ReinsertIsPermutation(items, i, row);
  }

  /** Taking the entry at `i` out of a list and putting it back at `row`
      permutes the list. */
  lemma ReinsertIsPermutation(items: seq<Thing>, i: nat, row: nat)
    requires i < |items| && row < |items|
    ensures
      var rest := items[..i] + items[i + 1..];
      multiset(rest[..row] + [items[i]] + rest[row..]) == multiset(items)
  {
    var rest := items[..i] + items[i + 1..];
    assert items == items[..i] + [items[i]] + items[i + 1..];
    assert rest == rest[..row] + rest[row..];
    calc {
      multiset(rest[..row] + [items[i]] + rest[row..]);
      multiset(rest[..row]) + multiset([items[i]]) + multiset(rest[row..]);
      multiset(rest) + multiset([items[i]]);
      multiset(items[..i]) + multiset(items[i + 1..]) + multiset([items[i]]);
      multiset(items);
    }
  }

  /** A card dropped on another column where no row is under the finger
      lands at the end of that column. */
  lemma MissingDestinationAppends(b: Board, thing: Thing, s: State)
    requires thing.state != Some(s)
    ensures PerformDrop(b, ListCollectionView(s), None, Things([thing]))
            == MoveThing(b, thing, s, |Column(b, s)|)
    ensures PerformDrop(b, ListCollectionView(s), None, Things([thing])).Success?
    ensures Column(PerformDrop(b, ListCollectionView(s), None, Things([thing])).value, s)
            == Column(b, s) + [thing.(state := Some(s))]
  {
    InsertAtEndAppends(Column(b, s), thing.(state := Some(s)));
  }

  /** A card dropped back on its own column where no row is under the
      finger: the end row is counted before the card is deleted, so after
      the delete it lies one past the end of the column, where the assumed
      insert has no meaning. */
  lemma AppendDropOntoOwnColumnOverruns(b: Board, s: State, i: nat)
    requires WellFormed(b) && i < |Column(b, s)|
    ensures PerformDrop(b, ListCollectionView(s), None, Things([Column(b, s)[i]]))
            == Failure(RowPastEnd(|Column(b, s)|, |Column(b, s)| - 1))
  {
    var items := Column(b, s);
    assert items[i] in items;
    OnlyOneHasId(items, i);
    OwnColumnEndRowOverruns(b, s, i);
  }

  lemma OwnColumnEndRowOverruns(b: Board, s: State, i: nat)
    requires i < |Column(b, s)| && Column(b, s)[i].state == Some(s)
    requires forall k :: 0 <= k < |Column(b, s)| && k != i ==> Column(b, s)[k].id != Column(b, s)[i].id
    ensures PerformDrop(b, ListCollectionView(s), None, Things([Column(b, s)[i]]))
            == Failure(RowPastEnd(|Column(b, s)|, |Column(b, s)| - 1))
  {
    var items := Column(b, s);
    var card := items[i];
    DeleteRemovesOne(items, i, card);
    assert Column(DeleteFromBefore(b, card), s) == AssumedDelete(items, card);
    DropWithoutDestinationUsesEndRow(b, s, card);
  }

  /** With no destination index path, a drop of one card on a list view is
      the move to the row counted before anything is deleted. */
  lemma DropWithoutDestinationUsesEndRow(b: Board, s: State, thing: Thing)
    ensures PerformDrop(b, ListCollectionView(s), None, Things([thing]))
            == MoveThing(b, thing, s, |Column(b, s)|)
  {
  }

  /** A worked drop: with cards A and B in "todo", dropping A on the top
      row of "doing" leaves B alone in "todo" and A, now in state doing,
      alone in "doing". */
  lemma TodoToDoingExample()
    ensures
      var a := NewThing(Some("A"), None, Some(Todo), None, id := Some("a"));
      var bee := NewThing(Some("B"), None, Some(Todo), None, id := Some("b"));
      var board := Board([a, bee], [], []);
      PerformDrop(board, ListCollectionView(Doing), Some(IndexPath(0, 0)), Things([a]))
        == Success(Board([bee], [a.(state := Some(Doing))], []))
  {
    var a := NewThing(Some("A"), None, Some(Todo), None, id := Some("a"));
    var bee := NewThing(Some("B"), None, Some(Todo), None, id := Some("b"));
    var board := Board([a, bee], [], []);
    assert bee.id != a.id;
    assert AssumedDelete([a, bee], a) == [bee] by {
      assert [a, bee][1..] == [bee];
      assert [bee][1..] == [];
    }
    var empty: seq<Thing> := [];
    InsertAtEndAppends(empty, a.(state := Some(Doing)));
    assert empty + [a.(state := Some(Doing))] == [a.(state := Some(Doing))];
  }
}
