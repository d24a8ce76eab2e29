/**
 * `UnmodifiableCollectionsSerializer`: the codec for the read-only views
 * returned by `Collections.unmodifiableCollection`, `unmodifiableList`,
 * `unmodifiableSet`, `unmodifiableSortedSet`, `unmodifiableMap` and
 * `unmodifiableSortedMap`. A view is an object of one of seven exact wrapper
 * classes whose hidden field (`c` for collections, `m` for maps) holds the
 * delegate. The record is the kind's ordinal as a varint, then the delegate
 * written class-tagged.
 */
module UnmodifiableCollections {
  import opened Java
  import opened Kryo

  /** The enum `UnmodifiableCollection`: one kind per wrapper class. */
  datatype Kind = COLLECTION | RANDOM_ACCESS_LIST | LIST | SET | SORTED_SET | MAP | SORTED_MAP

  /** `UnmodifiableCollection.values()`: the kinds in declaration order. */
  const Kinds: seq<Kind> := [COLLECTION, RANDOM_ACCESS_LIST, LIST, SET, SORTED_SET, MAP, SORTED_MAP]

  /** `ordinal()`: the position of a kind in `values()`. */
  function Ordinal(k: Kind): (o: nat)
    ensures o < |Kinds| && Kinds[o] == k
  {
    match k
    case COLLECTION => 0
    case RANDOM_ACCESS_LIST => 1
    case LIST => 2
    case SET => 3
    case SORTED_SET => 4
    case MAP => 5
    case SORTED_MAP => 6
  }

  const Prefix := "java.util.Collections$"
  const CollectionTypes: set<string> := {"java.util.Collection", "java.lang.Iterable", "java.io.Serializable", "java.lang.Object"}
  const MapTypes: set<string> := {"java.util.Map", "java.io.Serializable", "java.lang.Object"}

  /**
   * The exact runtime class each kind is bound to: the class of the view the
   * kind's factory returns, with all its supertypes.
   */
  function TypeOf(k: Kind): JClass {
    match k
    case COLLECTION =>
      RefClass(Prefix + "UnmodifiableCollection", CollectionTypes)
    case RANDOM_ACCESS_LIST =>
      RefClass(Prefix + "UnmodifiableRandomAccessList",
        CollectionTypes + {Prefix + "UnmodifiableCollection", Prefix + "UnmodifiableList", "java.util.List", "java.util.RandomAccess"})
    case LIST =>
      RefClass(Prefix + "UnmodifiableList", CollectionTypes + {Prefix + "UnmodifiableCollection", "java.util.List"})
    case SET =>
      RefClass(Prefix + "UnmodifiableSet", CollectionTypes + {Prefix + "UnmodifiableCollection", "java.util.Set"})
    case SORTED_SET =>
      RefClass(Prefix + "UnmodifiableSortedSet",
        CollectionTypes + {Prefix + "UnmodifiableCollection", Prefix + "UnmodifiableSet", "java.util.Set", "java.util.SortedSet"})
    case MAP =>
      RefClass(Prefix + "UnmodifiableMap", MapTypes)
    case SORTED_MAP =>
      RefClass(Prefix + "UnmodifiableSortedMap", MapTypes + {Prefix + "UnmodifiableMap", "java.util.SortedMap"})
  }

  /**
   * `Collections.unmodifiableNavigableSet(...)`'s class: a subclass of the
   * SORTED_SET kind's class that no kind is bound to.
   */
  const NavigableSetView := RefClass(Prefix + "UnmodifiableNavigableSet",
    TypeOf(SORTED_SET).supertypes + {Prefix + "UnmodifiableSortedSet", "java.util.NavigableSet"})

  /** The hidden field of a view that holds its delegate. */
  function FieldName(k: Kind): string {
    if k == MAP || k == SORTED_MAP then "m" else "c"
  }

  /** The interface `create` casts the delegate to. */
  function CastTarget(k: Kind): string {
    match k
    case COLLECTION => "java.util.Collection"
    case RANDOM_ACCESS_LIST => "java.util.List"
    case LIST => "java.util.List"
    case SET => "java.util.Set"
    case SORTED_SET => "java.util.SortedSet"
    case MAP => "java.util.Map"
    case SORTED_MAP => "java.util.SortedMap"
  }

  /**
   * The kind of the view `create` gets from the factory: `unmodifiableList`
   * returns the random-access view exactly when the delegate is `RandomAccess`.
   */
  function MadeKind(k: Kind, d: Value): Kind {
    if k == RANDOM_ACCESS_LIST || k == LIST then
      if IsA(d, "java.util.RandomAccess") then RANDOM_ACCESS_LIST else LIST
    else k
  }

  /**
   * `create(sourceCollection)`: cast the delegate to the kind's interface and
   * wrap it with the kind's factory, which rejects null.
   */
  function Create(k: Kind, d: Value): (r: Result<Value>)
    ensures r.Ok? <==> IsA(d, CastTarget(k))
    ensures d.Null? ==> r == Err(NullPointerException)
    ensures r.Ok? ==> r.value.Object? && r.value.cls == TypeOf(MadeKind(k, d))
  {
    if d.Null? then Err(NullPointerException)
    else if !IsA(d, CastTarget(k)) then Err(ClassCastException(CastTarget(k)))
    else
      var made := MadeKind(k, d);
      Ok(Object(TypeOf(made), map[FieldName(made) := d]))
  }

  /**
   * `getValue(object)`: the delegate in the view's hidden field; a field that
   * cannot be read fails with the one checked exception, which `write` and
   * `copy` then wrap.
   */
  function GetValue(k: Kind, obj: Value): (r: Result<Value>)
    requires obj.Object?
    ensures r.Ok? <==> FieldName(k) in obj.fields
    ensures r.Ok? ==> r.value == obj.fields[if k == MAP || k == SORTED_MAP then "m" else "c"]
    ensures r.Err? ==> !r.error.IsRuntime() && Rethrow(r.error) == RuntimeException(r.error)
  {
    if FieldName(k) in obj.fields then Ok(obj.fields[FieldName(k)])
    else Err(IllegalAccessException(FieldName(k)))
  }

  /**
   * The refusal of `valueOfType`: the type is printed by `Class.toString`,
   * which puts "class " before the name of the object's runtime class.
   */
  function Unsupported(c: JClass): Exception {
    IllegalArgumentException("The type class " + Name(c) + " is not supported.")
  }

  /** The first kind from position `i` on whose class is exactly `c`. */
  function FirstMatch(c: JClass, i: nat): (r: Result<Kind>)
    requires i <= |Kinds|
    decreases |Kinds| - i
  {
    if i == |Kinds| then Err(Unsupported(c))
    else if TypeOf(Kinds[i]) == c then Ok(Kinds[i])
    else FirstMatch(c, i + 1)
  }

  /** `valueOfType(type)`, as a function for the other specifications. */
  function Classify(c: JClass): Result<Kind> {
    FirstMatch(c, 0)
  }

  /** Each kind's class is matched by that kind and no other. */
  lemma {:induction false} ClassifyTypeOf(k: Kind)
    ensures Classify(TypeOf(k)) == Ok(k)
  {
    var c := TypeOf(k);
    var i := 0;
    while i < Ordinal(k)
      invariant i <= Ordinal(k)
      invariant FirstMatch(c, i) == FirstMatch(c, 0)
    {
      TypeOfInjective(Kinds[i], k);
      i := i + 1;
    }
  }

  /** Distinct kinds are bound to distinct classes. */
  lemma TypeOfInjective(j: Kind, k: Kind)
    requires j != k
    ensures TypeOf(j) != TypeOf(k)
  {
    var a, b := Name(TypeOf(j)), Name(TypeOf(k));
    // the only names of equal length are a set's and a map's: "...Set" against "...Map"
    if |a| == |b| {
      assert a[|a| - 3] != b[|b| - 3];
    }
  }

  /** `valueOfType`: the first kind, in declaration order, whose class equals `c` exactly. */
  method ValueOfType(c: JClass) returns (r: Result<Kind>)
    ensures r == Classify(c)
    ensures r.Ok? ==> TypeOf(r.value) == c
    ensures r.Ok? ==> forall j :: 0 <= j < Ordinal(r.value) ==> TypeOf(Kinds[j]) != c
    ensures r.Err? ==> r.error == Unsupported(c) && forall k :: TypeOf(k) != c
  {
    var i := 0;
    while i < |Kinds|
      invariant i <= |Kinds|
      invariant forall j :: 0 <= j < i ==> TypeOf(Kinds[j]) != c
      invariant FirstMatch(c, i) == FirstMatch(c, 0)
    {
      if TypeOf(Kinds[i]) == c {
        assert Ordinal(Kinds[i]) == i;
        return Ok(Kinds[i]);
      }
      i := i + 1;
    }
    r := Err(Unsupported(c));
    forall k: Kind ensures TypeOf(k) != c {
      assert Kinds[Ordinal(k)] == k;
    }
  }

  /** What `write` emits for `obj`, and how it ends. */
  function Written(obj: Value): (seq<Token>, Outcome)
    requires obj.Object?
  {
    match Classify(obj.cls)
    case Err(e) => ([], Fail(Rethrow(e)))
    case Ok(k) =>
      match GetValue(k, obj)
      case Err(e) => ([VarInt(Ordinal(k) as int32)], Fail(Rethrow(e)))
      case Ok(d) => ([VarInt(Ordinal(k) as int32), ClassAndObject(d)], Pass)
  }

  /** `write`: the kind's ordinal, then the delegate with its class. */
  method Write(output: Output, obj: Value) returns (r: Outcome)
    requires obj.Object?
    modifies output
    ensures output.tokens == old(output.tokens) + Written(obj).0
    ensures r == Written(obj).1
  {
    var kind := ValueOfType(obj.cls);
    if kind.Err? {
      return Fail(Rethrow(kind.error));
    }
    var k := kind.value;
    output.WriteVarInt(Ordinal(k) as int32);
    var d := GetValue(k, obj);
    if d.Err? {
      return Fail(Rethrow(d.error));
    }
    output.WriteClassAndObject(d.value);
    r := Pass;
  }

  /** What `read` makes of the stream `s` from position `pos`, and where it stops. */
  function Decode(s: seq<Token>, pos: nat): Result<(Value, nat)> {
    var ordinal :- VarIntAt(s, pos);
    if !(0 <= ordinal.0 as int < |Kinds|) then Err(ArrayIndexOutOfBoundsException(ordinal.0 as int))
    else
      var d :- ClassAndObjectAt(s, ordinal.1);
      var view :- Create(Kinds[ordinal.0], d.0);
      Ok((view, d.1))
  }

  /** `read`: the ordinal, `values()[ordinal]`, the delegate, then `create`. */
  method Read(input: Input) returns (r: Result<Value>)
    requires input.Valid()
    modifies input
    ensures input.Valid()
    ensures r == FieldOf(Decode(input.tokens, old(input.position)))
    ensures r.Ok? ==> input.position == Decode(input.tokens, old(input.position)).value.1
  {
    var ordinal := input.ReadVarInt();
    if ordinal.Err? {
      return Err(ordinal.error);
    }
    if !(0 <= ordinal.value as int < |Kinds|) {
      return Err(ArrayIndexOutOfBoundsException(ordinal.value as int));
    }
    var kind := Kinds[ordinal.value];
    var d := input.ReadClassAndObject();
    if d.Err? {
      return Err(d.error);
    }
    r := Create(kind, d.value);
  }

  /**
   * `copy`: the same kind re-wrapping the engine's copy of the delegate. Every
   * failure leaves as a runtime exception; a copy is again a view of a kind.
   */
  function Copy(original: Value): (r: Result<Value>)
    requires original.Object?
    ensures r.Err? ==> r.error.IsRuntime()
    ensures Classify(original.cls).Err? ==> r == Err(Unsupported(original.cls))
    ensures r.Ok? ==> Classify(original.cls).Ok? && GetValue(Classify(original.cls).value, original).Ok?
    ensures r.Ok? ==> r.value.Object? && Classify(r.value.cls).Ok?
  {
    (var k :- Classify(original.cls);
     var d :- GetValue(k, original);
     Create(k, DeepCopy(d))).MapError(Rethrow)
  }

  /** A view the factory made exposes its delegate to the kind of its class. */
  lemma CreateThenGetValue(k: Kind, d: Value)
    requires Create(k, d).Ok?
    ensures var view := Create(k, d).value;
      && view.Object?
      && Classify(view.cls) == Ok(MadeKind(k, d))
      && GetValue(MadeKind(k, d), view) == Ok(d)
  {
    ClassifyTypeOf(MadeKind(k, d));
  }

  /** `write` of an object of a class no kind is bound to fails and emits nothing. */
  lemma WriteUnsupported(obj: Value)
    requires obj.Object?
    requires forall k :: TypeOf(k) != obj.cls
    ensures Written(obj) == ([], Fail(Unsupported(obj.cls)))
  {
  }

  /**
   * A view whose hidden field cannot be read: the ordinal is already out, and
   * the checked exception leaves wrapped once in a `RuntimeException`.
   */
  lemma WriteInaccessible(obj: Value)
    requires obj.Object? && Classify(obj.cls).Ok?
    requires FieldName(Classify(obj.cls).value) !in obj.fields
    ensures var k := Classify(obj.cls).value;
      Written(obj) == ([VarInt(Ordinal(k) as int32)], Fail(RuntimeException(IllegalAccessException(FieldName(k)))))
  {
  }

  /** No subtype match: a subclass of a kind's class is not accepted. */
  lemma NavigableSetRejected()
    ensures NavigableSetView.supertypes >= TypeOf(SORTED_SET).Names()
    ensures Classify(NavigableSetView) == Err(Unsupported(NavigableSetView))
  {
    forall k: Kind ensures TypeOf(k) != NavigableSetView {
      assert Name(TypeOf(k)) != Name(NavigableSetView);
    }
    ClassifyUnbound(NavigableSetView);
  }

  /** A class no kind is bound to is refused. */
  lemma ClassifyUnbound(c: JClass)
    requires forall k: Kind :: TypeOf(k) != c
    ensures Classify(c) == Err(Unsupported(c))
  {
    var i := |Kinds|;
    while i > 0
      invariant 0 <= i <= |Kinds|
      invariant FirstMatch(c, i) == Err(Unsupported(c))
    {
      i := i - 1;
    }
  }

  /** `read` of an ordinal outside `values()` fails on the array index. */
  lemma ReadBadOrdinal(s: seq<Token>, pos: nat)
    requires pos < |s| && s[pos].VarInt?
    requires s[pos].n < 0 || s[pos].n >= 7
    ensures Decode(s, pos) == Err(ArrayIndexOutOfBoundsException(s[pos].n as int))
  {
  }

  /** `read` re-wraps whatever class the delegate decodes to; a delegate of the wrong interface fails the cast. */
  lemma ReadWrongDelegate(k: Kind, d: Value, rest: seq<Token>)
    requires d.Object? && !IsA(d, CastTarget(k))
    ensures Decode([VarInt(Ordinal(k) as int32), ClassAndObject(d)] + rest, 0) == Err(ClassCastException(CastTarget(k)))
  {
  }

  /**
   * Round trip: for every view the factories can make, `write` succeeds and
   * `read` of what it emitted, wherever it sits in the stream, gives back the
   * same view and stops right after it.
   */
  lemma RoundTrip(k: Kind, d: Value, before: seq<Token>, after: seq<Token>)
    requires Create(k, d).Ok?
    ensures var view := Create(k, d).value;
      && view.Object?
      && Written(view).1 == Pass
      && Decode(before + Written(view).0 + after, |before|) == Ok((view, |before| + |Written(view).0|))
  {
    var view := Create(k, d).value;
    var made := MadeKind(k, d);
    CreateThenGetValue(k, d);
    var rec := [VarInt(Ordinal(made) as int32), ClassAndObject(d)];
    assert Written(view) == (rec, Pass);
    var s := before + rec + after;
    assert VarIntAt(s, |before|) == Ok((Ordinal(made) as int32, |before| + 1));
    assert ClassAndObjectAt(s, |before| + 1) == Ok((d, |before| + 2));
    assert Create(Kinds[Ordinal(made)], d) == Ok(view) by {
      assert MadeKind(made, d) == made;
    }
  }

  /** `copy` of a view gives the same kind over an equal delegate: an equal view. */
  lemma CopyIsEqualView(k: Kind, d: Value)
    requires Create(k, d).Ok?
    ensures var view := Create(k, d).value;
      view.Object? && Copy(view) == Ok(view)
  {
    CreateThenGetValue(k, d);
    assert MadeKind(MadeKind(k, d), d) == MadeKind(k, d);
  }

  /** Writes a view to a fresh output and reads it back: the factory's view again. */
  method WriteThenRead(k: Kind, d: Value) returns (back: Result<Value>)
    requires Create(k, d).Ok?
    ensures back == Create(k, d)
  {
    var view := Create(k, d).value;
    var output := new Output();
    var _ := Write(output, view);
    var input := new Input(output.tokens);
    back := Read(input);
    RoundTrip(k, d, [], []);
    assert output.tokens == [] + Written(view).0 + [];
  }

  /** `registerSerializers`: every kind's class is bound to one shared serializer. */
  method RegisterSerializers(kryo: Registry) returns (serializer: Serializer)
    modifies kryo
    ensures forall k :: TypeOf(k) in kryo.bindings && kryo.bindings[TypeOf(k)] == serializer
    ensures forall c :: (forall k :: TypeOf(k) != c) ==>
      (c in kryo.bindings <==> c in old(kryo.bindings)) &&
      (c in kryo.bindings ==> kryo.bindings[c] == old(kryo.bindings)[c])
  {
    serializer := new Serializer("UnmodifiableCollectionsSerializer");
    var i := 0;
    while i < |Kinds|
      invariant i <= |Kinds|
      invariant forall j :: 0 <= j < i ==> TypeOf(Kinds[j]) in kryo.bindings && kryo.bindings[TypeOf(Kinds[j])] == serializer
      invariant forall c :: (forall k :: TypeOf(k) != c) ==>
        (c in kryo.bindings <==> c in old(kryo.bindings)) &&
        (c in kryo.bindings ==> kryo.bindings[c] == old(kryo.bindings)[c])
    {
      kryo.Register(TypeOf(Kinds[i]), serializer);
      i := i + 1;
    }
    forall k: Kind ensures TypeOf(k) in kryo.bindings && kryo.bindings[TypeOf(k)] == serializer {
      assert Kinds[Ordinal(k)] == k;
    }
  }
}
