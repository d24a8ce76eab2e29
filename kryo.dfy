/**
 * The serialization engine the codecs plug into, seen only through the calls
 * they make. The stream is a sequence of engine-level fields (tokens) rather
 * than bytes: each write call appends its field, each read call consumes one
 * field of the expected shape. The engine's own field encodings (varint bit
 * layout, class descriptors, the class-and-object format, reference tracking)
 * are not part of this model; a field reads back as exactly the field written.
 */
module Kryo {
  import opened Java

  datatype Token =
    /** `output.writeInt(v, true)` / `writeVarInt(v, true)`: a variable-length int. */
    | VarInt(n: int32)
    /** `output.writeLong(v)`: eight bytes. */
    | Fixed64(long: int64)
    /** One raw byte of `output.writeBytes(...)`. */
    | Raw(byte: int8)
    /** `kryo.writeClass(output, c)`: a class descriptor. */
    | ClassRef(cls: JClass)
    /** `kryo.writeClassAndObject(output, v)`: a value tagged with its own class. */
    | ClassAndObject(obj: Value)

  /** The tokens `writeBytes` emits for a byte array: one raw token per byte, in order. */
  function RawBytes(bytes: seq<int8>): (r: seq<Token>)
    ensures |r| == |bytes|
    ensures forall i :: 0 <= i < |r| ==> r[i] == Raw(bytes[i])
  {
    seq(|bytes|, i requires 0 <= i < |bytes| => Raw(bytes[i]))
  }

  /** The exception a read past the end of the input raises. */
  const Underflow := KryoException("Buffer underflow.")

  /** The exception a read raises on a field of another shape than it expects. */
  const Malformed := KryoException("Unexpected field in the input.")

  // Reading one field at position `pos` of a stream: the field and the next position.

  function VarIntAt(s: seq<Token>, pos: nat): (r: Result<(int32, nat)>)
    ensures r.Ok? <==> pos < |s| && s[pos].VarInt?
    ensures r.Ok? ==> r.value == (s[pos].n, pos + 1)
  {
    if pos >= |s| then Err(Underflow)
    else if s[pos].VarInt? then Ok((s[pos].n, pos + 1))
    else Err(Malformed)
  }

  function LongAt(s: seq<Token>, pos: nat): (r: Result<(int64, nat)>)
    ensures r.Ok? <==> pos < |s| && s[pos].Fixed64?
    ensures r.Ok? ==> r.value == (s[pos].long, pos + 1)
  {
    if pos >= |s| then Err(Underflow)
    else if s[pos].Fixed64? then Ok((s[pos].long, pos + 1))
    else Err(Malformed)
  }

  function ClassAt(s: seq<Token>, pos: nat): (r: Result<(JClass, nat)>)
    ensures r.Ok? <==> pos < |s| && s[pos].ClassRef?
    ensures r.Ok? ==> r.value == (s[pos].cls, pos + 1)
  {
    if pos >= |s| then Err(Underflow)
    else if s[pos].ClassRef? then Ok((s[pos].cls, pos + 1))
    else Err(Malformed)
  }

  function ClassAndObjectAt(s: seq<Token>, pos: nat): (r: Result<(Value, nat)>)
    ensures r.Ok? <==> pos < |s| && s[pos].ClassAndObject?
    ensures r.Ok? ==> r.value == (s[pos].obj, pos + 1)
  {
    if pos >= |s| then Err(Underflow)
    else if s[pos].ClassAndObject? then Ok((s[pos].obj, pos + 1))
    else Err(Malformed)
  }

  /** `input.readBytes(buffer, 0, n)`: the next `n` raw bytes. */
  function BytesAt(s: seq<Token>, pos: nat, n: nat): (r: Result<(seq<int8>, nat)>)
    ensures r.Ok? <==> pos + n <= |s| && forall i :: pos <= i < pos + n ==> s[i].Raw?
    ensures r.Ok? ==> |r.value.0| == n && r.value.1 == pos + n && RawBytes(r.value.0) == s[pos..pos + n]
  {
    if pos + n > |s| then Err(Underflow)
    else if forall i :: pos <= i < pos + n ==> s[i].Raw? then
      var bytes := seq(n, i requires 0 <= i < n && pos + i < |s| => s[pos + i].byte);
      assert RawBytes(bytes) == s[pos..pos + n];
      Ok((bytes, pos + n))
    else Err(Malformed)
  }

  /** The engine's `Output`: the fields written so far. */
  class Output {
    var tokens: seq<Token>

    constructor ()
      ensures tokens == []
    {
      tokens := [];
    }

    method WriteVarInt(v: int32)
      modifies this
      ensures tokens == old(tokens) + [VarInt(v)]
    {
      tokens := tokens + [VarInt(v)];
    }

    method WriteLong(v: int64)
      modifies this
      ensures tokens == old(tokens) + [Fixed64(v)]
    {
      tokens := tokens + [Fixed64(v)];
    }

    method WriteBytes(bytes: seq<int8>)
      modifies this
      ensures tokens == old(tokens) + RawBytes(bytes)
    {
      tokens := tokens + RawBytes(bytes);
    }

    /** `kryo.writeClass(output, c)` */
    method WriteClass(c: JClass)
      modifies this
      ensures tokens == old(tokens) + [ClassRef(c)]
    {
      tokens := tokens + [ClassRef(c)];
    }

    /** `kryo.writeClassAndObject(output, v)` */
    method WriteClassAndObject(v: Value)
      modifies this
      ensures tokens == old(tokens) + [ClassAndObject(v)]
    {
      tokens := tokens + [ClassAndObject(v)];
    }
  }

  /** The engine's `Input`: a stream and a cursor into it. */
  class Input {
    const tokens: seq<Token>
    var position: nat

    ghost predicate Valid()
      reads this
    {
      position <= |tokens|
    }

    constructor (tokens: seq<Token>)
      ensures Valid() && this.tokens == tokens && position == 0
    {
      this.tokens := tokens;
      position := 0;
    }

    /** `input.readInt(true)` / `input.readVarInt(true)` */
    method ReadVarInt() returns (r: Result<int32>)
      requires Valid()
      modifies this
      ensures Valid()
      ensures r == FieldOf(VarIntAt(tokens, old(position)))
      ensures r.Ok? ==> position == old(position) + 1
    {
      if position < |tokens| && tokens[position].VarInt? {
        r := Ok(tokens[position].n);
        position := position + 1;
      } else if position >= |tokens| {
        r := Err(Underflow);
      } else {
        r := Err(Malformed);
      }
    }

    /** `input.readLong()` */
    method ReadLong() returns (r: Result<int64>)
      requires Valid()
      modifies this
      ensures Valid()
      ensures r == FieldOf(LongAt(tokens, old(position)))
      ensures r.Ok? ==> position == old(position) + 1
    {
      if position < |tokens| && tokens[position].Fixed64? {
        r := Ok(tokens[position].long);
        position := position + 1;
      } else if position >= |tokens| {
        r := Err(Underflow);
      } else {
        r := Err(Malformed);
      }
    }

    /** `kryo.readClass(input).getType()` */
    method ReadClass() returns (r: Result<JClass>)
      requires Valid()
      modifies this
      ensures Valid()
      ensures r == FieldOf(ClassAt(tokens, old(position)))
      ensures r.Ok? ==> position == old(position) + 1
    {
      if position < |tokens| && tokens[position].ClassRef? {
        r := Ok(tokens[position].cls);
        position := position + 1;
      } else if position >= |tokens| {
        r := Err(Underflow);
      } else {
        r := Err(Malformed);
      }
    }

    /** `kryo.readClassAndObject(input)` */
    method ReadClassAndObject() returns (r: Result<Value>)
      requires Valid()
      modifies this
      ensures Valid()
      ensures r == FieldOf(ClassAndObjectAt(tokens, old(position)))
      ensures r.Ok? ==> position == old(position) + 1
    {
      if position < |tokens| && tokens[position].ClassAndObject? {
        r := Ok(tokens[position].obj);
        position := position + 1;
      } else if position >= |tokens| {
        r := Err(Underflow);
      } else {
        r := Err(Malformed);
      }
    }

    /** `input.readBytes(buffer, 0, buffer.length)`: fills `buffer` from the stream. */
    method ReadBytes(buffer: array<int8>) returns (r: Outcome)
      requires Valid()
      modifies this, buffer
      ensures Valid()
      ensures var expected := BytesAt(tokens, old(position), buffer.Length);
        && (r.Pass? <==> expected.Ok?)
        && (expected.Err? ==> r == Fail(expected.error))
        && (expected.Ok? ==> buffer[..] == expected.value.0 && position == expected.value.1)
    {
      if position + buffer.Length > |tokens| {
        return Fail(Underflow);
      }
      var i := 0;
      while i < buffer.Length
        invariant 0 <= i <= buffer.Length
        invariant position == old(position) + i
        invariant forall j :: old(position) <= j < position ==> tokens[j].Raw?
        invariant forall j :: 0 <= j < i ==> buffer[j] == tokens[old(position) + j].byte
      {
        if !tokens[position].Raw? {
          return Fail(Malformed);
        }
        buffer[i] := tokens[position].byte;
        position := position + 1;
        i := i + 1;
      }
      r := Pass;
      ghost var expected := BytesAt(tokens, old(position), buffer.Length);
      assert buffer[..] == expected.value.0;
    }
  }

  /** The field of a successful read, without the position after it. */
  function FieldOf<T>(r: Result<(T, nat)>): Result<T> {
    match r
    case Ok(p) => Ok(p.0)
    case Err(e) => Err(e)
  }

  /** The engine's deep copy, `kryo.copy(v)`. Values here carry no identity, so a copy is the value itself. */
  function DeepCopy(v: Value): Value {
    v
  }

  /**
   * The engine's default `Serializer.copy` for the serializer class named
   * `serializer`: a serializer marked immutable hands back the original; any
   * other fails, naming its class, unless it overrides `copy`.
   */
  function DefaultCopy<T>(immutable: bool, serializer: string, original: T): (r: Result<T>)
    ensures r.Ok? <==> immutable
    ensures r.Ok? ==> r.value == original
    ensures r.Err? ==> r.error == KryoException("Serializer does not support copy: " + serializer)
  {
    if immutable then Ok(original) else Err(KryoException("Serializer does not support copy: " + serializer))
  }

  /** A serializer instance, known by identity. */
  class Serializer {
    const name: string

    constructor (name: string)
      ensures this.name == name
    {
      this.name := name;
    }
  }

  /** The engine's class registry: which serializer handles which runtime class. */
  class Registry {
    var bindings: map<JClass, Serializer>

    constructor ()
      ensures bindings == map[]
    {
      bindings := map[];
    }

    /** `kryo.register(type, serializer)` */
    method Register(c: JClass, s: Serializer)
      modifies this
      ensures bindings == old(bindings)[c := s]
    {
      bindings := bindings[c := s];
    }
  }
}
