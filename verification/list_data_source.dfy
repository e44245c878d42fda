/** The two list mutators the drop delegate calls on a column's list view,
    `ListCollectionView.deleteDataSource(thing:)` and
    `ListCollectionView.reorderDataSource(destinationIndexPath:thing:)`.

    ListCollectionView is not part of this model, so both are ASSUMED
    behaviours, named `Assumed…` wherever they are used:
    - delete removes every card whose id equals the given card's id and
      keeps the rest in order;
    - reorder inserts the card at the given row; a row past the end of
      the list is given no meaning (no clamping is assumed). */
module ListDataSource {
  import opened Wrappers
  import opened ThingModel

  /** The ids present in a list. */
  function Ids(items: seq<Thing>): set<Option<string>> {
    set x | x in items :: x.id
  }

  /** Whether no two cards of a list share an id. */
  predicate DistinctIds(items: seq<Thing>)
    decreases |items|
  {
    |items| == 0 || (items[0].id !in Ids(items[1..]) && DistinctIds(items[1..]))
  }

  lemma IdsConcat(a: seq<Thing>, b: seq<Thing>)
    ensures Ids(a + b) == Ids(a) + Ids(b)
  {
    assert forall x :: x in a + b <==> x in a || x in b;
  }

  lemma IdsCons(items: seq<Thing>)
    requires |items| > 0
    ensures Ids(items) == {items[0].id} + Ids(items[1..])
  {
    assert items == [items[0]] + items[1..];
    IdsConcat([items[0]], items[1..]);
  }

  /** A concatenation has distinct ids exactly when both parts do and
      they share no id. */
  lemma {:induction false} DistinctConcat(a: seq<Thing>, b: seq<Thing>)
    ensures DistinctIds(a + b) <==> DistinctIds(a) && DistinctIds(b) && Ids(a) !! Ids(b)
    decreases |a|
  {
    if |a| == 0 {
      assert a + b == b;
    } else {
      var ab := a + b;
      assert ab[0] == a[0];
      assert ab[1..] == a[1..] + b;
      DistinctConcat(a[1..], b);
      IdsConcat(a[1..], b);
      IdsCons(a);
    }
  }

  /** In a list with distinct ids, only the entry at `i` carries its id. */
  lemma {:induction false} OnlyOneHasId(items: seq<Thing>, i: nat)
    requires i < |items| && DistinctIds(items)
    ensures forall k :: 0 <= k < |items| && k != i ==> items[k].id != items[i].id
    decreases |items|
  {
    var tail := items[1..];
    forall k | 0 <= k < |items| && k != i
      ensures items[k].id != items[i].id
    {
      if k == 0 {
        assert items[i] == tail[i - 1];
      } else if i == 0 {
        assert items[k] == tail[k - 1];
      } else {
        OnlyOneHasId(tail, i - 1);
        assert items[k] == tail[k - 1] && items[i] == tail[i - 1];
      }
    }
  }

  /** ASSUMED `deleteDataSource(thing:)`: drop every card `==` to `thing`. */
  function AssumedDelete(items: seq<Thing>, thing: Thing): (r: seq<Thing>)
    ensures forall x {:trigger x in r} :: x in r <==> x in items && x.id != thing.id
    ensures |r| <= |items|
    decreases |items|
  {
    if |items| == 0 then []
    else
      var rest := AssumedDelete(items[1..], thing);
      if items[0].id == thing.id then rest else [items[0]] + rest
  }

  /** Deleting from a concatenation deletes from each part. */
  lemma {:induction false} DeleteDistributes(a: seq<Thing>, b: seq<Thing>, thing: Thing)
    ensures AssumedDelete(a + b, thing) == AssumedDelete(a, thing) + AssumedDelete(b, thing)
    decreases |a|
  {
    if |a| == 0 {
      assert a + b == b;
    } else {
      var ab := a + b;
      assert ab[0] == a[0] && ab[1..] == a[1..] + b;
      DeleteDistributes(a[1..], b, thing);
    }
  }

  /** A list holding no card with the given id is left alone. */
  lemma {:induction false} DeleteAbsent(items: seq<Thing>, thing: Thing)
    requires forall k :: 0 <= k < |items| ==> items[k].id != thing.id
    ensures AssumedDelete(items, thing) == items
    decreases |items|
  {
    if |items| > 0 {
      var tail := items[1..];
      assert forall k :: 0 <= k < |tail| ==> tail[k] == items[k + 1];
      DeleteAbsent(tail, thing);
      assert items == [items[0]] + tail;
    }
  }

  /** Deleting takes exactly the given id out of a list's ids. */
  lemma DeleteIds(items: seq<Thing>, thing: Thing)
    ensures Ids(AssumedDelete(items, thing)) == Ids(items) - {thing.id}
  {
  }

  /** Deleting a card that sits at index `i`, and nowhere else, removes
      exactly that one entry. */
  lemma {:induction false} DeleteRemovesOne(items: seq<Thing>, i: nat, thing: Thing)
    requires i < |items| && items[i].id == thing.id
    requires forall k :: 0 <= k < |items| && k != i ==> items[k].id != thing.id
    ensures AssumedDelete(items, thing) == items[..i] + items[i + 1..]
    decreases i
  {
    var tail := items[1..];
    forall k | 0 <= k < |tail| && k != i - 1
      ensures tail[k].id != thing.id
    {
      assert tail[k] == items[k + 1];
    }
    if i == 0 {
      DeleteAbsent(tail, thing);
      calc {
        AssumedDelete(items, thing);
        AssumedDelete(tail, thing);
        tail;
        { assert items[..0] == []; }
        items[..0] + items[1..];
      }
    } else {
      assert items[0].id != thing.id;
      DeleteRemovesOne(tail, i - 1, thing);
      calc {
        AssumedDelete(items, thing);
        [items[0]] + AssumedDelete(tail, thing);
        [items[0]] + (tail[..i - 1] + tail[i..]);
        { assert items[..i] == [items[0]] + tail[..i - 1];
          assert items[i + 1..] == tail[i..]; }
        items[..i] + items[i + 1..];
      }
    }
  }

  /** ASSUMED `reorderDataSource(destinationIndexPath:thing:)`: put `thing`
      at `row`, shifting the cards from `row` on one place down. A row
      past the end has no assumed meaning and gives `None`. */
  function AssumedInsert(items: seq<Thing>, row: nat, thing: Thing): (r: Option<seq<Thing>>)
    ensures r.Some? <==> row <= |items|
    ensures r.Some? ==> |r.value| == |items| + 1 && r.value[row] == thing
    ensures r.Some? ==> r.value[..row] == items[..row] && r.value[row + 1..] == items[row..]
    ensures r.Some? ==> forall x {:trigger x in r.value} :: x in r.value <==> x == thing || x in items
  {
    if row <= |items| then Some(items[..row] + [thing] + items[row..]) else None
  }

  /** Inserting a card and then deleting it leaves what deleting it alone
      leaves: the two assumed mutators undo each other. */
  lemma DeleteUndoesInsert(items: seq<Thing>, row: nat, thing: Thing)
    requires row <= |items|
    ensures AssumedDelete(AssumedInsert(items, row, thing).value, thing) == AssumedDelete(items, thing)
  {
    var r := AssumedInsert(items, row, thing).value;
    assert r == items[..row] + ([thing] + items[row..]);
    DeleteDistributes(items[..row], [thing] + items[row..], thing);
    DeleteDistributes([thing], items[row..], thing);
    assert [thing][1..] == [];
    DeleteDistributes(items[..row], items[row..], thing);
    assert items[..row] + items[row..] == items;
  }

  /** Inserting at the row just past the end is appending. */
  lemma InsertAtEndAppends(items: seq<Thing>, thing: Thing)
    ensures AssumedInsert(items, |items|, thing) == Some(items + [thing])
  {
    assert items[..|items|] == items;
    assert items[|items|..] == [];
    assert items[..|items|] + [thing] + items[|items|..] == items + [thing];
  }

  /** Deleting keeps a list's ids distinct. */
  lemma {:induction false} DeleteKeepsDistinct(items: seq<Thing>, thing: Thing)
    requires DistinctIds(items)
    ensures DistinctIds(AssumedDelete(items, thing))
    decreases |items|
  {
    if |items| > 0 {
      DeleteKeepsDistinct(items[1..], thing);
      if items[0].id != thing.id {
        var rest := AssumedDelete(items[1..], thing);
        assert ([items[0]] + rest)[1..] == rest;
      }
    }
  }

  /** Inserting a card whose id the list lacks keeps its ids distinct. */
  lemma InsertKeepsDistinct(items: seq<Thing>, row: nat, thing: Thing)
    requires DistinctIds(items) && thing.id !in Ids(items) && row <= |items|
    ensures DistinctIds(AssumedInsert(items, row, thing).value)
    ensures Ids(AssumedInsert(items, row, thing).value) == Ids(items) + {thing.id}
  {
    var front, back := items[..row], items[row..];
    assert items == front + back;
    DistinctConcat(front, back);
    IdsConcat(front, back);
    DistinctConcat([thing], back);
    IdsConcat([thing], back);
    assert Ids([thing]) == {thing.id};
    DistinctConcat(front, [thing] + back);
    IdsConcat(front, [thing] + back);
    assert AssumedInsert(items, row, thing).value == front + ([thing] + back);
  }
}
