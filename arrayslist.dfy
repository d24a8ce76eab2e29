/**
 * `ArraysAsListSerializer`: the codec for the fixed-size lists
 * `Arrays.asList(...)` returns. The record is the list's length (varint), a
 * component class, then every element written class-tagged. The component
 * class written is a guess: the class of the first element, or for an empty
 * list the component type of `toArray()`. `read` allocates an array of that
 * component type (primitive types boxed first), stores every decoded element
 * into it, and wraps it in a new list.
 */
module ArraysAsList {
  import opened Java
  import opened Kryo

  /** The wrapper class of a primitive type (`Long.class` for `long`, and so on). */
  function Boxed(p: Primitive): (c: JClass)
    requires p != Void
    ensures c.RefClass? && "java.lang.Object" in c.supertypes
  {
    var numeric := {"java.lang.Number", "java.lang.Comparable", "java.io.Serializable", "java.lang.Object"};
    var other := {"java.lang.Comparable", "java.io.Serializable", "java.lang.Object"};
    match p
    case Long => RefClass("java.lang.Long", numeric)
    case Int => RefClass("java.lang.Integer", numeric)
    case Double => RefClass("java.lang.Double", numeric)
    case Float => RefClass("java.lang.Float", numeric)
    case Boolean => RefClass("java.lang.Boolean", other)
    case Char => RefClass("java.lang.Character", other)
    case Short => RefClass("java.lang.Short", numeric)
    case Byte => RefClass("java.lang.Byte", numeric)
  }

  /**
   * `getPrimitiveWrapperClass`: each of the eight primitive types becomes its
   * wrapper class; `void` and every reference class are left as they are.
   */
  function PrimitiveWrapperClass(c: JClass): (r: JClass)
    ensures c.PrimitiveClass? && c.primitive != Void ==> r == Boxed(c.primitive)
    ensures !c.IsPrimitive() || c == PrimitiveClass(Void) ==> r == c
    ensures r.IsPrimitive() <==> c == PrimitiveClass(Void)
  {
    if c.IsPrimitive() then
      match c.primitive
      case Long => Boxed(Long)
      case Int => Boxed(Int)
      case Double => Boxed(Double)
      case Float => Boxed(Float)
      case Boolean => Boxed(Boolean)
      case Char => Boxed(Char)
      case Short => Boxed(Short)
      case Byte => Boxed(Byte)
      case Void => c
    else c
  }

  /** Distinct primitive types have distinct wrapper classes, each named after its primitive. */
  lemma WrappersDistinct(p: Primitive, q: Primitive)
    requires p != Void && q != Void && p != q
    ensures PrimitiveWrapperClass(PrimitiveClass(p)) != PrimitiveWrapperClass(PrimitiveClass(q))
    ensures Name(PrimitiveWrapperClass(PrimitiveClass(p))) != PrimitiveName(p)
  {
  }

  /** Whether `v` may be stored in an array of component type `c` (the store check of `Array.set`). */
  predicate Storable(v: Value, c: JClass) {
    v.Null? || InstanceOf(v, c)
  }

  /** Whether every element may be stored in an array of component type `c`. */
  predicate AllStorable(items: seq<Value>, c: JClass) {
    forall i :: 0 <= i < |items| ==> Storable(items[i], c)
  }

  /**
   * `java.util.Arrays$ArrayList`: a fixed-size list backed by (and aliasing)
   * an object array whose runtime component type is `component`.
   */
  class FixedList {
    const component: JClass
    const a: array<Value>

    ghost predicate Valid()
      reads this, a
    {
      && !component.IsPrimitive()
      && a.Length < 0x8000_0000
      && AllStorable(a[..], component)
    }

    /** `Arrays.asList(items)`: a view of the array itself, not a copy. */
    constructor (component: JClass, a: array<Value>)
      ensures this.component == component && this.a == a
    {
      this.component := component;
      this.a := a;
    }
  }

  /** The class-tagged tokens of the elements, in list order. */
  function ElementTokens(items: seq<Value>): (s: seq<Token>)
    ensures |s| == |items|
    ensures forall i :: 0 <= i < |items| ==> s[i] == ClassAndObject(items[i])
  {
    seq(|items|, i requires 0 <= i < |items| => ClassAndObject(items[i]))
  }

  /**
   * What `write` emits for a list with backing component type `component`,
   * and how it ends: the size, then for an empty list the component type,
   * otherwise the first element's class (a null first element throws
   * `NullPointerException`, rethrown unchanged) and every element.
   */
  function Written(component: JClass, items: seq<Value>): (seq<Token>, Outcome)
    requires |items| < 0x8000_0000
  {
    var size := VarInt(|items| as int32);
    if |items| == 0 then ([size, ClassRef(component)], Pass)
    else if !items[0].Object? then ([size], Fail(Rethrow(NullPointerException)))
    else ([size, ClassRef(items[0].cls)] + ElementTokens(items), Pass)
  }

  /** `write` */
  method Write(output: Output, list: FixedList) returns (r: Outcome)
    requires list.Valid()
    modifies output
    ensures (output.tokens, r) == (old(output.tokens) + Written(list.component, list.a[..]).0,
                                   Written(list.component, list.a[..]).1)
  {
    var size := list.a.Length;
    output.WriteVarInt(size as int32);
    if size == 0 {
      // the component type of `toArray()`, a clone of the backing array
      output.WriteClass(list.component);
      assert list.a[..] == [];
      assert output.tokens == old(output.tokens) + [VarInt(0), ClassRef(list.component)];
      return Pass;
    }
    assert list.a[..][0] == list.a[0];
    if !list.a[0].Object? {
      return Fail(Rethrow(NullPointerException));
    }
    output.WriteClass(list.a[0].cls);
    ghost var header := output.tokens;
    assert header == old(output.tokens) + [VarInt(size as int32), ClassRef(list.a[0].cls)];
    for i := 0 to size
      invariant output.tokens == header + ElementTokens(list.a[..i])
    {
      output.WriteClassAndObject(list.a[i]);
      assert ElementTokens(list.a[..i + 1]) == ElementTokens(list.a[..i]) + [ClassAndObject(list.a[i])];
    }
    assert list.a[..size] == list.a[..];
    assert Written(list.component, list.a[..]).0 == [VarInt(size as int32), ClassRef(list.a[0].cls)] + ElementTokens(list.a[..]);
    assert output.tokens == old(output.tokens) + Written(list.component, list.a[..]).0;
    r := Pass;
  }

  /** `read`'s own `catch (Exception e) { throw new RuntimeException(e); }`: every exception is wrapped. */
  function Wrap(e: Exception): (r: Exception)
    ensures r.RuntimeException? && r.cause == e
  {
    RuntimeException(e)
  }

  const TypeMismatch := IllegalArgumentException("argument type mismatch")

  /**
   * Reading `n` more elements from `pos` after `items`: each one is decoded
   * and stored, and a value the array cannot hold stops the read.
   */
  function ReadElements(s: seq<Token>, pos: nat, c: JClass, n: nat, items: seq<Value>): (r: Result<(seq<Value>, nat)>)
    ensures r.Ok? ==> |r.value.0| == |items| + n && r.value.0[..|items|] == items && r.value.1 == pos + n
    ensures r.Ok? ==> AllStorable(r.value.0[|items|..], c)
    ensures r.Err? ==> r.error == Malformed || r.error == Underflow || r.error == TypeMismatch
    decreases n
  {
    if n == 0 then Ok((items, pos))
    else
      var v :- ClassAndObjectAt(s, pos);
      if !Storable(v.0, c) then Err(TypeMismatch)
      else
        var r := ReadElements(s, v.1, c, n - 1, items + [v.0]);
        assert r.Ok? ==> r.value.0[|items|..] == [v.0] + r.value.0[|items| + 1..];
        r
  }

  /**
   * What `read` makes of the stream from `pos`: the length and the component
   * class (their failures are not wrapped), the component boxed if primitive,
   * then, inside the wrapping `try`, the array allocation (a negative length,
   * then a `void` component, is refused) and the elements.
   */
  function Decode(s: seq<Token>, pos: nat): (r: Result<((JClass, seq<Value>), nat)>)
    ensures r.Ok? ==> !r.value.0.0.IsPrimitive() && AllStorable(r.value.0.1, r.value.0.0)
  {
    var length :- VarIntAt(s, pos);
    var componentType :- ClassAt(s, length.1);
    var c := PrimitiveWrapperClass(componentType.0);
    if length.0 < 0 then Err(Wrap(NegativeArraySizeException(length.0 as int)))
    else if c.IsPrimitive() then Err(Wrap(IllegalArgumentException("")))
    else
      var items :- ReadElements(s, componentType.1, c, length.0 as nat, []).MapError(Wrap);
      assert items.0[0..] == items.0;
      Ok(((c, items.0), items.1))
  }

  /**
   * The allocation refuses a negative length first, then a `void` component;
   * both happen inside the `try`, so both leave wrapped. A stream too short
   * for the header fails before it, unwrapped.
   */
  lemma DecodeRefusals(s: seq<Token>, pos: nat)
    ensures pos + 1 < |s| && s[pos].VarInt? && s[pos + 1].ClassRef? && s[pos].n < 0 ==>
      Decode(s, pos) == Err(RuntimeException(NegativeArraySizeException(s[pos].n as int)))
    ensures pos + 1 < |s| && s[pos].VarInt? && s[pos].n >= 0 && s[pos + 1] == ClassRef(PrimitiveClass(Void)) ==>
      Decode(s, pos) == Err(RuntimeException(IllegalArgumentException("")))
    ensures pos + 1 >= |s| ==> Decode(s, pos).Err? && !Decode(s, pos).error.RuntimeException?
  {
  }

  /** `read`: the length, the component class, then a new array filled element by element. */
  method Read(input: Input) returns (r: Result<FixedList>)
    requires input.Valid()
    modifies input
    ensures input.Valid()
    ensures var expected := Decode(input.tokens, old(input.position));
      && (r.Ok? <==> expected.Ok?)
      && (r.Err? ==> r.error == expected.error)
      && (r.Ok? ==> fresh(r.value) && fresh(r.value.a) && r.value.Valid()
                    && (r.value.component, r.value.a[..]) == expected.value.0
                    && input.position == expected.value.1)
  {
    var length := input.ReadVarInt();
    if length.Err? {
      return Err(length.error);
    }
    var componentType := input.ReadClass();
    if componentType.Err? {
      return Err(componentType.error);
    }
    var c := componentType.value;
    if c.IsPrimitive() {
      c := PrimitiveWrapperClass(c);
    }
    if length.value < 0 {
      return Err(Wrap(NegativeArraySizeException(length.value as int)));
    }
    if c.IsPrimitive() {
      return Err(Wrap(IllegalArgumentException("")));
    }
    var items := NewFilledArray(input, c, length.value as nat);
    if items.Err? {
      return Err(Wrap(items.error));
    }
    var list := new FixedList(c, items.value);
    r := Ok(list);
    ghost var expected := ReadElements(input.tokens, old(input.position) + 2, c, length.value as nat, []);
    assert expected.value.0[0..] == expected.value.0;
  }

  /**
   * The body of `read`'s `try`: a new array of component type `c` and length
   * `n`, filled with `Array.set` from the next `n` decoded values.
   */
  method NewFilledArray(input: Input, c: JClass, n: nat) returns (r: Result<array<Value>>)
    requires input.Valid()
    modifies input
    ensures input.Valid()
    ensures var expected := ReadElements(input.tokens, old(input.position), c, n, []);
      && (r.Ok? <==> expected.Ok?)
      && (r.Err? ==> r.error == expected.error)
      && (r.Ok? ==> fresh(r.value) && r.value[..] == expected.value.0 && input.position == expected.value.1)
  {
    ghost var expected := ReadElements(input.tokens, input.position, c, n, []);
    var items := new Value[n](_ => Null);
    for i := 0 to n
      invariant input.Valid()
      invariant ReadElements(input.tokens, input.position, c, n - i, items[..i]) == expected
    {
      var item := input.ReadClassAndObject();
      if item.Err? {
        return Err(item.error);
      }
      if !Storable(item.value, c) {
        return Err(TypeMismatch);
      }
      items[i] := item.value;
      assert items[..i + 1] == items[..i] + [item.value];
    }
    assert items[..] == items[..n];
    r := Ok(items);
  }

  /**
   * `copy`: a new fixed-size list over the engine's copy of `toArray()`, an
   * array of the same component type holding the copy of each element in turn.
   */
  method Copy(original: FixedList) returns (copy: FixedList)
    requires original.Valid()
    ensures fresh(copy) && fresh(copy.a) && copy.Valid()
    ensures copy.component == original.component && copy.a.Length == original.a.Length
    ensures forall i :: 0 <= i < copy.a.Length ==> copy.a[i] == DeepCopy(original.a[i])
  {
    var elements := original.a[..];
    var arrayCopy := new Value[|elements|](i requires 0 <= i < |elements| => DeepCopy(elements[i]));
    assert arrayCopy[..] == elements;
    copy := new FixedList(original.component, arrayCopy);
  }

  /** Whether every element can be stored in an array of the first element's class. */
  predicate Homogeneous(items: seq<Value>)
    requires |items| > 0 && items[0].Object?
  {
    AllStorable(items, items[0].cls)
  }

  /**
   * Reading the class-tagged tokens of `items` after `k` of them were
   * already stored: the rest are stored in turn, and reading stops right
   * after the last one.
   */
  lemma {:induction false} ReadElementsOf(s: seq<Token>, pos: nat, c: JClass, items: seq<Value>, k: nat)
    requires k <= |items| && pos + |items| <= |s|
    requires forall i :: 0 <= i < |items| ==> s[pos + i] == ClassAndObject(items[i])
    requires AllStorable(items, c)
    ensures ReadElements(s, pos + k, c, |items| - k, items[..k]) == Ok((items, pos + |items|))
    decreases |items| - k
  {
    if k == |items| {
      assert items[..k] == items;
    } else {
      assert items[..k] + [items[k]] == items[..k + 1];
      ReadElementsOf(s, pos, c, items, k + 1);
    }
  }

  /**
   * Reading the tokens of `items` when element `j` is the first one the array
   * cannot hold: the read stops there with the store check's exception.
   */
  lemma {:induction false} ReadElementsMismatch(s: seq<Token>, pos: nat, c: JClass, items: seq<Value>, j: nat, k: nat)
    requires k <= j < |items| && pos + |items| <= |s|
    requires forall i :: 0 <= i < |items| ==> s[pos + i] == ClassAndObject(items[i])
    requires forall i :: 0 <= i < j ==> Storable(items[i], c)
    requires !Storable(items[j], c)
    ensures ReadElements(s, pos + k, c, |items| - k, items[..k]) == Err(TypeMismatch)
    decreases j - k
  {
    if k < j {
      assert items[..k] + [items[k]] == items[..k + 1];
      ReadElementsMismatch(s, pos, c, items, j, k + 1);
    }
  }

  /**
   * Round trip of an empty list: `read` gives an empty list of the same
   * component type and stops right after the record.
   */
  lemma RoundTripEmpty(component: JClass, before: seq<Token>, after: seq<Token>)
    requires !component.IsPrimitive()
    ensures var rec := Written(component, []).0;
      Decode(before + rec + after, |before|) == Ok(((component, []), |before| + |rec|))
  {
    var rec := Written(component, []).0;
    var s := before + rec + after;
    assert s[|before|] == VarInt(0) && s[|before| + 1] == ClassRef(component);
  }

  /**
   * Round trip of a non-empty list whose first element is not null: `read`
   * succeeds exactly when every element can be stored in an array of the
   * first element's class, and then gives the same elements in the same
   * order over an array of that class; otherwise it fails with the store
   * check's exception, wrapped.
   */
  lemma RoundTrip(items: seq<Value>, component: JClass, before: seq<Token>, after: seq<Token>)
    requires 0 < |items| < 0x8000_0000 && items[0].Object?
    requires !component.IsPrimitive() && AllStorable(items, component)
    ensures var rec := Written(component, items).0;
      var r := Decode(before + rec + after, |before|);
      && (r.Ok? <==> Homogeneous(items))
      && (r.Ok? ==> r.value == ((items[0].cls, items), |before| + |rec|))
      && (r.Err? ==> r.error == Wrap(TypeMismatch))
  {
    var rec := Written(component, items).0;
    var s := before + rec + after;
    var pos := |before| + 2;
    var c := items[0].cls;
    assert !c.IsPrimitive() by {
      assert Storable(items[0], component);
    }
    assert |rec| == 2 + |items|;
    assert s[|before|] == VarInt(|items| as int32) && s[|before| + 1] == ClassRef(c);
    DecodeHeader(s, |before|, c, |items|);
    assert forall i :: 0 <= i < |items| ==> s[pos + i] == ClassAndObject(items[i]) by {
      ElementsIn(s, |before|, rec, items);
    }
    ReadAllElements(s, pos, c, items);
  }

  /** Past a header of a non-negative length and a reference class, `read` is the element loop, wrapped. */
  lemma DecodeHeader(s: seq<Token>, start: nat, c: JClass, n: nat)
    requires start + 2 <= |s| && n < 0x8000_0000 && !c.IsPrimitive()
    requires s[start] == VarInt(n as int32) && s[start + 1] == ClassRef(c)
    ensures var e := ReadElements(s, start + 2, c, n, []);
      Decode(s, start) == if e.Ok? then Ok(((c, e.value.0), e.value.1)) else Err(Wrap(e.error))
  {
  }

  /**
   * Reading the class-tagged tokens of `items` into an empty array of
   * component type `c`: all of them when every one can be stored, otherwise
   * the store check's exception.
   */
  lemma ReadAllElements(s: seq<Token>, pos: nat, c: JClass, items: seq<Value>)
    requires pos + |items| <= |s|
    requires forall i :: 0 <= i < |items| ==> s[pos + i] == ClassAndObject(items[i])
    ensures AllStorable(items, c) ==> ReadElements(s, pos, c, |items|, []) == Ok((items, pos + |items|))
    ensures !AllStorable(items, c) ==> ReadElements(s, pos, c, |items|, []) == Err(TypeMismatch)
  {
    assert items[..0] == [];
    if AllStorable(items, c) {
      ReadElementsOf(s, pos, c, items, 0);
    } else {
      var j :| 0 <= j < |items| && !Storable(items[j], c);
      var first := FirstMismatch(items, c, j);
      ReadElementsMismatch(s, pos, c, items, first, 0);
    }
  }

  /** Where the record of a non-empty list sits in a stream, its elements follow its two header tokens. */
  lemma ElementsIn(s: seq<Token>, start: nat, rec: seq<Token>, items: seq<Value>)
    requires start + |rec| <= |s| && s[start..start + |rec|] == rec
    requires |rec| == 2 + |items| && rec[2..] == ElementTokens(items)
    ensures forall i :: 0 <= i < |items| ==> s[start + 2 + i] == ClassAndObject(items[i])
  {
    forall i | 0 <= i < |items|
      ensures s[start + 2 + i] == ClassAndObject(items[i])
    {
      assert s[start + 2 + i] == rec[2 + i] == ElementTokens(items)[i];
    }
  }

  /** Some element fails the store check, so there is a first one that does. */
  lemma {:induction false} FirstMismatch(items: seq<Value>, c: JClass, j: nat) returns (first: nat)
    requires j < |items| && !Storable(items[j], c)
    ensures first <= j && !Storable(items[first], c)
    ensures forall i :: 0 <= i < first ==> Storable(items[i], c)
  {
    if forall i :: 0 <= i < j ==> Storable(items[i], c) {
      first := j;
    } else {
      var i :| 0 <= i < j && !Storable(items[i], c);
      first := FirstMismatch(items, c, i);
    }
  }

  /**
   * Writes a list to a fresh output and reads it back: an empty list keeps its
   * component type; a non-empty one whose first element is not null and of
   * whose class every element is an instance comes back element for element,
   * over an array of the first element's class.
   */
  method WriteThenRead(list: FixedList) returns (back: Result<FixedList>)
    requires list.Valid()
    requires list.a.Length > 0 ==> list.a[0].Object? && Homogeneous(list.a[..])
    ensures back.Ok? && back.value.a[..] == list.a[..]
    ensures back.value.component == if list.a.Length == 0 then list.component else list.a[0].cls
  {
    var output := new Output();
    var _ := Write(output, list);
    var input := new Input(output.tokens);
    back := Read(input);
    var rec := Written(list.component, list.a[..]).0;
    assert output.tokens == [] + rec + [];
    if list.a.Length == 0 {
      RoundTripEmpty(list.component, [], []);
    } else {
      RoundTrip(list.a[..], list.component, [], []);
    }
  }
}
