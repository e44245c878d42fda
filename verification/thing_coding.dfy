/** How a card crosses a drag: its coding keys, the keyed container its
    synthesized `Codable` conformance writes and reads, and the item
    provider type identifiers under which it travels.

    The container stands for what the compiler-synthesized
    `encode(to:)` / `init(from:)` exchange with a keyed coder; the JSON
    bytes produced from it are not modelled. */
module ThingCoding {
  import opened Wrappers
  import opened ThingModel

  /** The stored properties of a card. */
  datatype Field = IdField | TitleField | DetailField | StateField | DueDateField | UpdatedAtField

  const AllFields: set<Field> :=
    {IdField, TitleField, DetailField, StateField, DueDateField, UpdatedAtField}

  lemma AllFieldsComplete()
    ensures forall f :: f in AllFields
  {
    forall f
      ensures f in AllFields
    {
      match f
      case IdField =>
      case TitleField =>
      case DetailField =>
      case StateField =>
      case DueDateField =>
      case UpdatedAtField =>
    }
  }

  /** The Swift property name of each field. */
  function PropertyName(f: Field): string {
    match f
    case IdField => "id"
    case TitleField => "title"
    case DetailField => "detail"
    case StateField => "state"
    case DueDateField => "dueDate"
    case UpdatedAtField => "updatedAt"
  }

  /** `Thing.CodingKeys`: the raw value each field is written under. */
  function CodingKey(f: Field): (key: string)
    ensures key == PropertyName(f) <==> f != DetailField
    ensures f == DetailField ==> key == "description"
  {
    match f
    case IdField => "id"
    case TitleField => "title"
    case DetailField => "description"
    case StateField => "state"
    case DueDateField => "dueDate"
    case UpdatedAtField => "updatedAt"
  }

  /** No two fields share a coding key. */
  lemma CodingKeyInjective(f: Field, g: Field)
    ensures CodingKey(f) == CodingKey(g) ==> f == g
  {
  }

  lemma CodingKeysDistinct()
    ensures forall f, g :: CodingKey(f) == CodingKey(g) ==> f == g
  {
    forall f, g
      ensures CodingKey(f) == CodingKey(g) ==> f == g
    {
      CodingKeyInjective(f, g);
    }
  }

  /** `CodingKeys(stringValue:)`: the field a key names, if any. */
  function FieldForKey(key: string): (r: Option<Field>)
    ensures r.Some? ==> CodingKey(r.value) == key
    ensures r.None? ==> forall f :: CodingKey(f) != key
  {
    if key == "id" then Some(IdField)
    else if key == "title" then Some(TitleField)
    else if key == "description" then Some(DetailField)
    else if key == "state" then Some(StateField)
    else if key == "dueDate" then Some(DueDateField)
    else if key == "updatedAt" then Some(UpdatedAtField)
    else None
  }

  /** Every field is found again from its own key, and the property name
      `detail` is not a key at all. */
  lemma FieldForKeyInvertsCodingKey(f: Field)
    ensures FieldForKey(CodingKey(f)) == Some(f)
    ensures FieldForKey("detail") == None
  {
  }

  lemma KeysNameFields()
    ensures forall f :: FieldForKey(CodingKey(f)) == Some(f)
    ensures FieldForKey("detail") == None
  {
    forall f
      ensures FieldForKey(CodingKey(f)) == Some(f)
    {
      FieldForKeyInvertsCodingKey(f);
    }
  }

  /** A value stored in the keyed container: an explicit `null`, or a
      value of one of the fields' kinds. How a `State` itself is encoded is
      not part of this model, so it is kept whole. */
  datatype Value = Null | Text(text: string) | StateValue(state: State) | Number(date: DueDate)

  /** A keyed container: coding key to encoded value. */
  type Container = map<string, Value>

  /** Whether `key` holds a value other than `null`: what
      `decodeIfPresent` reads as present. */
  predicate Present(c: Container, key: string) {
    key in c && !c[key].Null?
  }

  function TextValue(s: Option<string>): Option<Value> {
    if s.Some? then Some(Text(s.value)) else None
  }

  /** The value a field of `t` is encoded to, `None` for `nil`. */
  function FieldValue(t: Thing, f: Field): Option<Value> {
    match f
    case IdField => TextValue(t.id)
    case TitleField => TextValue(t.title)
    case DetailField => TextValue(t.detail)
    case StateField => if t.state.Some? then Some(StateValue(t.state.value)) else None
    case DueDateField => if t.dueDate.Some? then Some(Number(t.dueDate.value)) else None
    case UpdatedAtField => TextValue(t.updatedAt)
  }

  /** Two cards that agree on every field are the same value. */
  lemma FieldValuesDetermineThing(a: Thing, b: Thing)
    requires forall f :: FieldValue(a, f) == FieldValue(b, f)
    ensures a == b
  {
    assert FieldValue(a, IdField) == FieldValue(b, IdField);
    assert FieldValue(a, TitleField) == FieldValue(b, TitleField);
    assert FieldValue(a, DetailField) == FieldValue(b, DetailField);
    assert FieldValue(a, StateField) == FieldValue(b, StateField);
    assert FieldValue(a, DueDateField) == FieldValue(b, DueDateField);
    assert FieldValue(a, UpdatedAtField) == FieldValue(b, UpdatedAtField);
  }

  /** Whether a value is acceptable for a field: `null`, which every
      optional field takes, or a value of the field's declared kind. */
  predicate Fits(f: Field, v: Value) {
    v.Null? ||
    match f
    case StateField => v.StateValue?
    case DueDateField => v.Number?
    case _ => v.Text?
  }

  /** The synthesized `encode(to:)`: every non-`nil` field under its
      coding key (`encodeIfPresent`), nothing else. */
  function Encode(t: Thing): (c: Container)
    ensures forall f :: CodingKey(f) in c <==> FieldValue(t, f).Some?
    ensures forall f :: CodingKey(f) in c ==> c[CodingKey(f)] == FieldValue(t, f).value
    ensures forall k :: k in c ==> FieldForKey(k).Some?
    ensures "detail" !in c
  {
    CodingKeysDistinct();
    KeysNameFields();
    AllFieldsComplete();
    map f | f in AllFields && FieldValue(t, f).Some? :: CodingKey(f) := FieldValue(t, f).value
  }

  datatype DecodingError = TypeMismatch(key: string)

  /** `decodeIfPresent` of one field: an absent key or a `null` gives
      `nil`, a value of the wrong kind is a type mismatch. */
  function DecodeField(c: Container, f: Field): (r: Result<Option<Value>, DecodingError>)
    ensures r.Success? <==> (CodingKey(f) in c ==> Fits(f, c[CodingKey(f)]))
    ensures r.Success? ==> r.value == (if Present(c, CodingKey(f)) then Some(c[CodingKey(f)]) else None)
  {
    var key := CodingKey(f);
    if key !in c || c[key].Null? then Success(None)
    else if Fits(f, c[key]) then Success(Some(c[key]))
    else Failure(TypeMismatch(key))
  }

  function AsText(v: Option<Value>): Option<string> {
    if v.Some? && v.value.Text? then Some(v.value.text) else None
  }

  /** The synthesized `init(from:)`. Keys that name no field are ignored,
      and a `null` reads as `nil`. */
  function Decode(c: Container): (r: Result<Thing, DecodingError>)
    ensures r.Success? <==> forall f :: CodingKey(f) in c ==> Fits(f, c[CodingKey(f)])
    ensures r.Success? ==> forall f :: FieldValue(r.value, f) ==
                                         (if Present(c, CodingKey(f)) then Some(c[CodingKey(f)]) else None)
  {
    var id :- DecodeField(c, IdField);
    var title :- DecodeField(c, TitleField);
    var detail :- DecodeField(c, DetailField);
    var state :- DecodeField(c, StateField);
    var dueDate :- DecodeField(c, DueDateField);
    var updatedAt :- DecodeField(c, UpdatedAtField);
    Success(Thing(
      AsText(id), AsText(title), AsText(detail),
      if state.Some? then Some(state.value.state) else None,
      if dueDate.Some? then Some(dueDate.value.date) else None,
      AsText(updatedAt)))
  }

  /** Every encoded entry fits its field, and is present exactly when the
      field is not `nil`. */
  lemma EncodeReadsBack(t: Thing)
    ensures forall f :: CodingKey(f) in Encode(t) ==> Fits(f, Encode(t)[CodingKey(f)])
    ensures forall f :: Present(Encode(t), CodingKey(f)) <==> FieldValue(t, f).Some?
  {
    var c := Encode(t);
    forall f | CodingKey(f) in c
      ensures Fits(f, c[CodingKey(f)]) && !c[CodingKey(f)].Null?
    {
      var v := FieldValue(t, f).value;
      assert c[CodingKey(f)] == v;
    }
  }

  /** Decoding what was encoded gives the card back, every field included. */
  lemma DecodeEncode(t: Thing)
    ensures Decode(Encode(t)) == Success(t)
  {
    var c := Encode(t);
    EncodeReadsBack(t);
    var r := Decode(c);
    assert r.Success?;
    FieldValuesDetermineThing(r.value, t);
  }

  /** The entries of a container that the decoder reads a value from:
      under a coding key, and not `null`. */
  function KnownEntries(c: Container): (k: Container)
    ensures forall key :: key in k <==> Present(c, key) && FieldForKey(key).Some?
    ensures forall key :: key in k ==> key in c && k[key] == c[key]
  {
    map key | key in c && !c[key].Null? && FieldForKey(key).Some? :: c[key]
  }

  /** Encoding a decoded card gives back exactly the entries the decoder
      read a value from: no information under a coding key is lost, and a
      `null` comes back as an absent key. */
  lemma EncodeDecode(c: Container)
    requires Decode(c).Success?
    ensures Encode(Decode(c).value) == KnownEntries(c)
  {
    var t := Decode(c).value;
    var e := Encode(t);
    var k := KnownEntries(c);
    forall key | key in e
      ensures key in k && e[key] == k[key]
    {
      var f := FieldForKey(key).value;
      assert CodingKey(f) == key;
    }
    forall key | key in k
      ensures key in e
    {
      var f := FieldForKey(key).value;
      assert CodingKey(f) == key;
    }
  }

  /** A `null` under a key decodes as if the key were absent. */
  lemma {:induction false} DecodeReadsNullAsAbsent(c: Container, key: string)
    requires key in c && c[key].Null?
    ensures Decode(c) == Decode(c - {key})
  {
    forall f
      ensures DecodeField(c, f) == DecodeField(c - {key}, f)
    {
    }
  }

  /** `writableTypeIdentifiersForItemProvider`. */
  const WritableTypeIdentifiers: seq<string> := ["com.project-manager"]

  /** `readableTypeIdentifiersForItemProvider`. */
  const ReadableTypeIdentifiers: seq<string> := ["com.project-manager"]

  /** `loadData(withTypeIdentifier:forItemProviderCompletionHandler:)`:
      the payload handed to the completion handler, whatever identifier
      was asked for. */
  function ItemProviderData(t: Thing, typeIdentifier: string): (c: Container)
    ensures Decode(c) == Success(t)
  {
    DecodeEncode(t);
    Encode(t)
  }

  /** `object(withItemProviderData:typeIdentifier:)`. A payload that does
      not decode stops the app, so the caller must hand a decodable one. */
  function ObjectWithItemProviderData(c: Container, typeIdentifier: string): (t: Thing)
    requires Decode(c).Success?
    ensures Encode(t) == KnownEntries(c)
  {
    EncodeDecode(c);
    Decode(c).value
  }

  /** What a card writes under a writable identifier is read back, under
      that same identifier, as the very same card. */
  lemma ProviderRoundTrip(t: Thing, typeIdentifier: string)
    requires typeIdentifier in WritableTypeIdentifiers
    ensures typeIdentifier in ReadableTypeIdentifiers
    ensures Decode(ItemProviderData(t, typeIdentifier)).Success?
    ensures ObjectWithItemProviderData(ItemProviderData(t, typeIdentifier), typeIdentifier) == t
  {
  }

  /** The initializer's `description` argument is what travels under the
      key "description". */
  lemma DescriptionTravelsUnderItsName(
    title: Option<string>, description: string,
    state: Option<State>, dueDate: Option<DueDate>)
    ensures Encode(NewThing(title, Some(description), state, dueDate))["description"]
            == Text(description)
  {
    assert CodingKey(DetailField) == "description";
  }
}
