/** The task card `Thing`: its stored fields, its initializer, and its
    identity (`==`, `hash`, `isEqual`), which look at `id` alone. */
module ThingModel {
  import opened Wrappers

  /** The column a card belongs to. It is the `state` of a card and the
      `collectionType` of the list view that shows that column. */
  datatype State = Todo | Doing | Done

  /** A due date in seconds since 1970. The app stores it as a `Double`;
      the model keeps it opaque and never computes with it. */
  datatype DueDate = Seconds(value: real)

  /** One card. Every stored field is optional, as in the app. */
  datatype Thing = Thing(
    id: Option<string>,
    title: Option<string>,
    detail: Option<string>,
    state: Option<State>,
    dueDate: Option<DueDate>,
    updatedAt: Option<string>)

  /** `Thing.init`: the argument labelled `description` is stored in
      `detail`; `id` and `updatedAt` default to `nil`. */
  function NewThing(
    title: Option<string>,
    description: Option<string>,
    state: Option<State>,
    dueDate: Option<DueDate>,
    id: Option<string> := None,
    updatedAt: Option<string> := None): (t: Thing)
    ensures t.detail == description
    ensures t.id == id && t.title == title && t.state == state
    ensures t.dueDate == dueDate && t.updatedAt == updatedAt
  {
    Thing(id, title, description, state, dueDate, updatedAt)
  }

  /** An initializer call that leaves out `id` and `updatedAt` gets `nil`
      for both, and only the `description` argument reaches `detail`. */
  lemma NewThingDefaults(
    title: Option<string>, description: Option<string>,
    state: Option<State>, dueDate: Option<DueDate>)
    ensures NewThing(title, description, state, dueDate).id == None
    ensures NewThing(title, description, state, dueDate).updatedAt == None
    ensures NewThing(title, description, state, dueDate).detail == description
  {
  }

  /** `Thing.==`: two cards are the same card when their ids agree. */
  predicate Equal(lhs: Thing, rhs: Thing) {
    lhs.id == rhs.id
  }

  /** `==` holds exactly when the ids agree, whatever the other fields
      hold; in particular two cards without an id are equal. */
  lemma EqualIffSameId(a: Thing, b: Thing)
    ensures Equal(a, b) <==> a.id == b.id
    ensures a.id == None && b.id == None ==> Equal(a, b)
  {
  }

  /** Editing any field but `id` keeps a card `==` to what it was, and
      changing the id alone makes it a different card. */
  lemma EqualIgnoresContent(
    a: Thing, title: Option<string>, detail: Option<string>,
    state: Option<State>, dueDate: Option<DueDate>, updatedAt: Option<string>,
    otherId: Option<string>)
    ensures Equal(a, a.(title := title, detail := detail, state := state,
                        dueDate := dueDate, updatedAt := updatedAt))
    ensures otherId != a.id ==> !Equal(a, a.(id := otherId))
  {
  }

  /** `==` is an equivalence relation on cards. */
  lemma EqualIsEquivalence()
    ensures forall a: Thing :: Equal(a, a)
    ensures forall a: Thing, b: Thing :: Equal(a, b) ==> Equal(b, a)
    ensures forall a: Thing, b: Thing, c: Thing :: Equal(a, b) && Equal(b, c) ==> Equal(a, c)
  {
  }

  /** `Thing.hash`: a fresh `Hasher` is fed the id and finalized.
      The hasher's per-process seed and mixing are not modelled;
      `finalize` stands for "combine this id into a fresh hasher and
      finalize it". */
  function Hash(t: Thing, finalize: Option<string> -> int): int {
    finalize(t.id)
  }

  /** Cards that are `==` hash alike, under any hasher. */
  lemma EqualThingsHashAlike(a: Thing, b: Thing, finalize: Option<string> -> int)
    requires Equal(a, b)
    ensures Hash(a, finalize) == Hash(b, finalize)
  {
  }

  /** The hash reads nothing but the id. */
  lemma HashIgnoresContent(
    a: Thing, title: Option<string>, detail: Option<string>,
    state: Option<State>, dueDate: Option<DueDate>, updatedAt: Option<string>,
    finalize: Option<string> -> int)
    ensures Hash(a.(title := title, detail := detail, state := state,
                    dueDate := dueDate, updatedAt := updatedAt), finalize)
            == Hash(a, finalize)
  {
  }

  /** The argument of `isEqual(_:)`, an `Any?`: nothing, a card, or an
      object of any other class. */
  datatype AnyObject = NoObject | ThingObject(thing: Thing) | OtherObject

  /** `Thing.isEqual(_:)`: false unless the object is a card, and then
      a comparison of ids. */
  predicate IsEqual(self: Thing, obj: AnyObject)
    ensures IsEqual(self, obj) ==> obj.ThingObject? && Equal(self, obj.thing)
    ensures obj.ThingObject? && Equal(self, obj.thing) ==> IsEqual(self, obj)
  {
    match obj
    case ThingObject(other) => self.id == other.id
    case _ => false
  }

  /** `isEqual` rejects everything that is not a card and agrees with
      `==` on cards. */
  lemma IsEqualAgreesWithEqual(self: Thing, obj: AnyObject)
    ensures !obj.ThingObject? ==> !IsEqual(self, obj)
    ensures obj.ThingObject? ==> (IsEqual(self, obj) <==> Equal(self, obj.thing))
  {
  }
}
