/**
 * The slice of the Java runtime the serializers touch: fixed-width integers,
 * runtime classes, object values, and the exceptions the serializers throw
 * or let through.
 */
module Java {

  /** Java's `byte`, `int` and `long`. */
  newtype int8 = x: int | -0x80 <= x < 0x80
  newtype int32 = x: int | -0x8000_0000 <= x < 0x8000_0000
  newtype int64 = x: int | -0x8000_0000_0000_0000 <= x < 0x8000_0000_0000_0000

  /** A length or index that fits a Java array (at most `Integer.MAX_VALUE`). */
  type Length = n: nat | n < 0x8000_0000

  /** A Java byte array's contents. */
  type Bytes = s: seq<int8> | |s| < 0x8000_0000

  /** The nine primitive types; `void` is primitive too (`void.class.isPrimitive()`). */
  datatype Primitive = Boolean | Byte | Char | Short | Int | Long | Float | Double | Void

  /**
   * A runtime class. A reference class carries its name and the names of all
   * its proper supertypes (classes and interfaces, transitively); an enum class
   * carries the interfaces it implements besides those every enum has, and the
   * number of its constants.
   */
  datatype JClass =
    | PrimitiveClass(primitive: Primitive)
    | RefClass(name: string, supertypes: set<string>)
    | EnumClass(name: string, interfaces: set<string>, constantCount: Length)
  {
    /** `isPrimitive()` */
    predicate IsPrimitive() { PrimitiveClass? }

    /** The names of this class and of every type it is a subtype of. */
    function Names(): set<string> {
      match this
      case PrimitiveClass(_) => {}
      case RefClass(n, s) => {n} + s
      case EnumClass(n, i, _) => {n, "java.lang.Enum", "java.lang.Comparable", "java.io.Serializable", "java.lang.Object"} + i
    }
  }

  /** The name of a primitive's class, as `Class.getName()` spells it. */
  function PrimitiveName(p: Primitive): string {
    match p
    case Boolean => "boolean"
    case Byte => "byte"
    case Char => "char"
    case Short => "short"
    case Int => "int"
    case Long => "long"
    case Float => "float"
    case Double => "double"
    case Void => "void"
  }

  function Name(c: JClass): string {
    match c
    case PrimitiveClass(p) => PrimitiveName(p)
    case RefClass(n, _) => n
    case EnumClass(n, _, _) => n
  }

  /**
   * A value held in a field, an array slot or a collection: `null`, an object
   * of some runtime class whose state is the map from its field names to their
   * contents, or the bits of a primitive field.
   */
  datatype Value =
    | Null
    | Object(cls: JClass, fields: map<string, Value>)
    | PrimitiveValue(bits: int)

  /** `v instanceof <the type named n>`: false for null. */
  predicate IsA(v: Value, n: string) {
    v.Object? && n in v.cls.Names()
  }

  /** `c.isInstance(v)`: false for null and for every primitive class. */
  predicate InstanceOf(v: Value, c: JClass) {
    !c.IsPrimitive() && v.Object? && Name(c) in v.cls.Names()
  }

  /** The exceptions that can leave the serializers. */
  datatype Exception =
    | IllegalArgumentException(message: string)
    | ArrayIndexOutOfBoundsException(index: int)
    | NegativeArraySizeException(size: int)
    | ClassCastException(message: string)
    | NullPointerException
    | KryoException(message: string)
    /** The one checked exception: a hidden field that reflection cannot read. */
    | IllegalAccessException(field: string)
    | RuntimeException(cause: Exception)
  {
    /** Whether the exception is a `RuntimeException` (all but the checked one). */
    predicate IsRuntime() { !IllegalAccessException? }
  }

  /**
   * The serializers' `catch (RuntimeException e) { throw e; } catch (Exception e)
   * { throw new RuntimeException(e); }`: a runtime exception leaves unchanged,
   * any other leaves wrapped exactly once.
   */
  function Rethrow(e: Exception): (r: Exception)
    ensures r.IsRuntime()
    ensures e.IsRuntime() ==> r == e
    ensures !e.IsRuntime() ==> r.RuntimeException? && r.cause == e
  {
    if e.IsRuntime() then e else RuntimeException(e)
  }

  /** A computation that returns a `T` or throws. */
  datatype Result<+T> = Ok(value: T) | Err(error: Exception) {
    predicate IsFailure() { Err? }
    function PropagateFailure<U>(): Result<U> requires Err? { Err(error) }
    function Extract(): T requires Ok? { value }

    /** The same computation seen through a `catch` that maps the exception with `f`. */
    function MapError(f: Exception -> Exception): Result<T> {
      match this
      case Ok(v) => Ok(v)
      case Err(e) => Err(f(e))
    }
  }

  /** A `void` computation: it returns or throws. */
  datatype Outcome = Pass | Fail(error: Exception)
}
