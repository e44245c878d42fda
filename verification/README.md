# ProjectManager board — a Dafny model

ProjectManager is an iOS task board with three columns, to-do, doing and
done. Each column is a list view (`ListCollectionView`) of cards, called
`Thing`s. Cards are moved by drag and drop. This project models two parts
of the app and proves properties of them:

- **The card (`Thing`).** It has six stored fields, all optional. The
  initializer's `description` argument is stored in `detail`. Identity
  (`==`, `hash`, `isEqual`) looks only at `id`. The coding keys write
  `detail` under the name `"description"`. The item provider writes and
  reads the card under the single type identifier `com.project-manager`.
  Modules `ThingModel` (`thing.dfy`) and `ThingCoding` (`thing_coding.dfy`).
- **The view controller's drop handling.** While a drag hovers, a drop
  proposal is chosen. When a drop completes, the destination row is
  resolved. If no index path is given, the row is the end of the last
  section. Then three steps run in order:
  1. `deleteFromBefore` deletes the card from the column named by its
     `state`. This state may be stale.
  2. The card's `state` is set to the target column.
  3. The card is inserted at the resolved row.

  Modules `Columns` (`columns.dfy`) and `DropDelegate`
  (`drop_delegate.dfy`).

`ListCollectionView.deleteDataSource` and `reorderDataSource` are not
part of this model, and neither is the list view's section layout. Their
behaviour is stated as assumptions, and every function carrying one is
named `Assumed…`. `AssumedDelete` and `AssumedInsert` are in module
`ListDataSource` (`list_data_source.dfy`); `AssumedSectionItemCounts` is
in `DropDelegate`:

- delete removes every card whose id equals the given card's id, keeping
  the order of the rest;
- reorder inserts the card at the row;
- a row past the end has no assumed meaning. It yields an error result
  (`RowPastEnd`), not a clamped insert;
- a list view shows its column as one section, holding all of the
  column's cards.

The board is `Board(todo, doing, done)`, three sequences of cards.
`WellFormed` is the consistency the app relies on:

- every card sits in the column its `state` names;
- no id appears twice on the board.

The main results:

- A completed drop of a card dragged off a consistent board keeps the
  board consistent. Afterwards the card's id is in the target column and
  in no other (`DragAndDropKeepsBoardWellFormed`).
- A move across columns removes exactly one entry from the source
  column, inserts it at the row of the target, and leaves the third
  column alone (`CrossColumnMove`).
- A drop back into the card's own column is a permutation of that
  column (`SameColumnReorder`).

Behaviour of the code that the model makes visible: a card dropped into
the blank area of its OWN column gets as its destination the row count
taken BEFORE it is deleted. After the delete, that row is one past the
end of the column (`AppendDropOntoOwnColumnOverruns`). What
`reorderDataSource` then does is not visible, so the model reports
`RowPastEnd` rather than guessing.

Three further facts about the code, which the model keeps:

- The column a moved card is deleted from is chosen from the card's
  `state` alone. No column is scanned for it (ViewController.swift:58-68).
- No insert position is clamped in the code shown.
- A payload that does not decode reaches `fatalError` (Thing.swift:71).
  The model makes decodability a precondition.

## Model

| member | source | states |
|---|---|---|
| ThingModel.NewThing | ProjectManager/ProjectManager/Models/Thing.swift:11-18 | the `description` argument lands in `detail`, every other argument in the field of the same name |
| ThingModel.NewThingDefaults | ProjectManager/ProjectManager/Models/Thing.swift:11-18 | leaving out `id` and `updatedAt` gives `nil` for both |
| ThingModel.Equal | ProjectManager/ProjectManager/Models/Thing.swift:25-27 | `==` compares the ids alone; no ensures of its own: its contract is stated by EqualIffSameId, EqualIgnoresContent and EqualIsEquivalence |
| ThingModel.EqualIffSameId | ProjectManager/ProjectManager/Models/Thing.swift:25-27 | `==` holds exactly when the ids agree; two cards without an id are equal |
| ThingModel.EqualIgnoresContent | ProjectManager/ProjectManager/Models/Thing.swift:25-27 | changing any field but `id` keeps a card `==` to itself; changing the id alone breaks it |
| ThingModel.EqualIsEquivalence | ProjectManager/ProjectManager/Models/Thing.swift:25-27 | `==` is reflexive, symmetric and transitive |
| ThingModel.Hash | ProjectManager/ProjectManager/Models/Thing.swift:28-32 | the hash is the hasher's value for the id; no ensures of its own: its contract is stated by EqualThingsHashAlike and HashIgnoresContent |
| ThingModel.EqualThingsHashAlike | ProjectManager/ProjectManager/Models/Thing.swift:28-32 | cards that are `==` have equal hashes, whatever the hasher |
| ThingModel.HashIgnoresContent | ProjectManager/ProjectManager/Models/Thing.swift:28-32 | the hash is unchanged by any edit that keeps the id |
| ThingModel.IsEqual | ProjectManager/ProjectManager/Models/Thing.swift:34-37 | `isEqual` holds exactly when the object is a card that is `==` to this one |
| ThingModel.IsEqualAgreesWithEqual | ProjectManager/ProjectManager/Models/Thing.swift:34-37 | `isEqual` is false for nil and for non-cards, and agrees with `==` on cards |
| ThingCoding.CodingKey | ProjectManager/ProjectManager/Models/Thing.swift:20-23 | a field is written under its property name exactly when it is not `detail`; `detail` is written as "description" |
| ThingCoding.CodingKeyInjective | ProjectManager/ProjectManager/Models/Thing.swift:20-23 | no two fields share a coding key |
| ThingCoding.FieldForKey | ProjectManager/ProjectManager/Models/Thing.swift:20-23 | a key maps back to the field whose coding key it is, and to nothing when no field has it |
| ThingCoding.FieldForKeyInvertsCodingKey | ProjectManager/ProjectManager/Models/Thing.swift:20-23 | every field is recovered from its key; "detail" names no field |
| ThingCoding.Encode | ProjectManager/ProjectManager/Models/Thing.swift:49 | the encoded container holds each non-nil field under its coding key and nothing else, never a "detail" key |
| ThingCoding.Decode | ProjectManager/ProjectManager/Models/Thing.swift:68 | decoding fails exactly when a coding key holds a value of the wrong kind; otherwise each field is read from its key, an absent key or a `null` giving nil |
| ThingCoding.DecodeReadsNullAsAbsent | ProjectManager/ProjectManager/Models/Thing.swift:68 | a `null` under a key decodes exactly as if the key were absent |
| ThingCoding.DecodeEncode | ProjectManager/ProjectManager/Models/Thing.swift:46-72 | decoding an encoded card gives back the same card, every field included |
| ThingCoding.EncodeDecode | ProjectManager/ProjectManager/Models/Thing.swift:46-72 | re-encoding a decoded card gives back exactly the container's non-null entries under coding keys |
| ThingCoding.ItemProviderData | ProjectManager/ProjectManager/Models/Thing.swift:46-56 | the payload a card writes decodes to that card |
| ThingCoding.ObjectWithItemProviderData | ProjectManager/ProjectManager/Models/Thing.swift:65-73 | a well-formed payload yields the card whose encoding is the payload's non-null entries under coding keys |
| ThingCoding.ProviderRoundTrip | ProjectManager/ProjectManager/Models/Thing.swift:41-63 | every writable identifier is readable, and a written card is read back unchanged |
| ThingCoding.DescriptionTravelsUnderItsName | ProjectManager/ProjectManager/Models/Thing.swift:11-23 | the initializer's `description` argument is what is encoded under "description" |
| Columns.DeleteFromBefore | ProjectManager/ProjectManager/Controllers/ViewController.swift:58-69 | only the column named by `state` changes, losing exactly the cards with the card's id; a nil state changes nothing |
| Columns.StaleStateLeavesCardBehind | ProjectManager/ProjectManager/Controllers/ViewController.swift:58-68 | a card sitting in a column its state does not name survives the delete |
| Columns.DeleteFromBeforeClearsId | ProjectManager/ProjectManager/Controllers/ViewController.swift:58-69 | on a consistent board, an accurate state clears the id from the whole board and keeps it consistent |
| DropDelegate.ProposalForUpdate | ProjectManager/ProjectManager/Controllers/ViewController.swift:116-127 | cancel exactly when the item count is not one; otherwise move iff the drag is local, copy iff not, always insert-at-destination; never forbidden |
| DropDelegate.ResolveDestination | ProjectManager/ProjectManager/Controllers/ViewController.swift:134-142 | a given index path is used unchanged; a missing one becomes the last section at its item count |
| DropDelegate.AssumedSectionItemCounts | ProjectManager/ProjectManager/Controllers/ViewController.swift:139-140 | (assumed) a list view has one section, whose item count is the number of cards in its column |
| DropDelegate.DropWithoutDestinationUsesEndRow | ProjectManager/ProjectManager/Controllers/ViewController.swift:136-152 | with no index path, a one-card drop is the move to the row counted on the board before the delete |
| DropDelegate.MissingDestinationAppends | ProjectManager/ProjectManager/Controllers/ViewController.swift:138-142 | a drop on another column with no index path appends the card at the end of that column |
| DropDelegate.MoveThing | ProjectManager/ProjectManager/Controllers/ViewController.swift:148-152 | the moved card has the target state and sits at the row; the target holds it plus its old cards (minus the id when it was the source); the source column loses only the id; the third column is unchanged; failure exactly when the row is past the end |
| DropDelegate.PerformDrop | ProjectManager/ProjectManager/Controllers/ViewController.swift:129-155 | a drop on a non-list view or with no cards loaded changes nothing; otherwise it is exactly the move of the first loaded card to the given row, or to the target's pre-delete item count when no index path is given, so it succeeds exactly when `MoveThing` does, deletes by `state` and leaves the third column alone; on success the card sits at that row with the target's state |
| DropDelegate.MoveKeepsBoardWellFormed | ProjectManager/ProjectManager/Controllers/ViewController.swift:148-152 | moving an accurate card keeps the board consistent, its id then in the target column only |
| DropDelegate.DragAndDropKeepsBoardWellFormed | ProjectManager/ProjectManager/Controllers/ViewController.swift:101-155 | a card dragged off a consistent board arrives unchanged, and a completed drop keeps the board consistent with the id in the target only |
| DropDelegate.CrossColumnMove | ProjectManager/ProjectManager/Controllers/ViewController.swift:148-152 | a cross-column move removes exactly that entry from the source, inserts it with its new state at the row, and leaves the third column alone |
| DropDelegate.SameColumnReorder | ProjectManager/ProjectManager/Controllers/ViewController.swift:148-152 | a drop onto an existing row of the card's own column permutes that column and touches no other |
| DropDelegate.AppendDropOntoOwnColumnOverruns | ProjectManager/ProjectManager/Controllers/ViewController.swift:136-152 | dropping a card on the blank area of its own column asks for a row one past the end of the column after the delete |
| DropDelegate.TodoToDoingExample | ProjectManager/ProjectManager/Controllers/ViewController.swift:129-155 | with A and B in to-do, dropping A on row 0 of doing leaves to-do = [B] and doing = [A in state doing] |
| ListDataSource.AssumedDelete | ProjectManager/ProjectManager/Controllers/ViewController.swift:61-65 | (assumed) the result holds exactly the cards with another id, and nothing with the deleted id |
| ListDataSource.DeleteRemovesOne | ProjectManager/ProjectManager/Controllers/ViewController.swift:61-65 | (assumed) when one entry carries the id, the delete removes exactly that entry |
| ListDataSource.AssumedInsert | ProjectManager/ProjectManager/Controllers/ViewController.swift:152 | (assumed) defined exactly for rows up to the length; the card sits at the row, the cards before and after are kept in order |
| ListDataSource.DeleteUndoesInsert | ProjectManager/ProjectManager/Controllers/ViewController.swift:150-152 | (assumed) deleting a just-inserted card leaves what deleting it alone would |

## Left out

- UIKit layout, the navigation bar and stack-view setup (ViewController.swift:10-52): presentation only.
- The add and edit popovers (`didTapAddButton`, `configurePopOverView`, `didSelectItemAt`): UI widgets with no board mutation in the code shown.
- Building the drag item (`itemsForBeginning`), `NSItemProvider` asynchronous loading and `Progress`: platform plumbing. The drag is modelled only as the card's round trip through the provider payload.
- JSON bytes: the payload is the keyed container that the synthesized `Codable` conformance fills and reads. `JSONEncoder`'s refusal of non-finite numbers is not modelled.
- How a `State` value itself is encoded: the `State` type is not part of this model, so the container keeps it whole.
- `dueDate` as `Double`: kept as an opaque value; no floating-point reasoning.
- ThingModel.EqualIffSameId: ids are compared by their code points, while Swift's `String` equality uses Unicode canonical equivalence (`"\u{E9}"` and `"e\u{301}"` are `==` in Swift and hash alike). The model's `Equal`, `Hash`, `IsEqual` and the assumed delete therefore treat such ids as different; Unicode normalisation is not modelled.
- The `Hasher`'s per-process random seed and its mixing: `Hash` takes the finalizing function as a parameter.
- `[weak self]` and the time between resolving the destination and the load completing: the drop is modelled as one step on one board.
- `hasActiveDrag` and the session's item count are parameters of `ProposalForUpdate`; gesture recognition belongs to the system.
- ListCollectionView internals: its delete and insert are the assumptions named above. No clamping and no deduplication is claimed.
- ThingCoding.ObjectWithItemProviderData: a payload that does not decode stops the app; the model makes decodability a precondition instead of modelling the crash.
- ListDataSource.AssumedInsert: weaker than any real list view, because a row past the end is left without meaning (`None`) instead of whatever `reorderDataSource` does there.
- DropDelegate.ResolveDestination: the section of the resolved index path is carried but not used by the assumed insert, which reads only the row. The case of no index path and no section at all is a precondition and is not modelled: there the code asks for the item count of section -1, and what the list view answers is not visible.
- DropDelegate.AssumedSectionItemCounts: the one-section layout is assumed. The list view's data source is not part of this model, so `numberOfSections` is taken to be 1 and that section to hold the column's cards.
- DropDelegate.PerformDrop: only the first loaded card is moved, as in the code; what `reorderDataSource` does with a row past the end is reported as `RowPastEnd`, not modelled.
