/**
 * `IesParametersSerializer`: the codec for BouncyCastle's `IESParameters`.
 * The record is the derivation vector as a length-prefixed byte array, the
 * encoding vector likewise, then the MAC key size as a varint.
 */
module IesParameters {
  import opened Java
  import opened Kryo

  /** A `byte[]` reference: `null`, or an array with its bytes. */
  datatype Vector = NullVector | Vector(bytes: Bytes)

  /**
   * `IESParameters`: the derivation and encoding vectors, either of which may
   * be `null` as the constructor stores what it is given, and the MAC key size.
   */
  datatype IesParams = IesParams(derivation: Vector, encoding: Vector, macKeySize: int32) {
    /** Both vectors are arrays, so `write` can take their lengths. */
    predicate HasVectors() { derivation.Vector? && encoding.Vector? }
  }

  /** A byte array as `write` frames it: its length as a varint, then its bytes. */
  function Framed(bytes: Bytes): seq<Token> {
    [VarInt(|bytes| as int32)] + RawBytes(bytes)
  }

  /** The record `write` emits for parameters with both vectors. */
  function Record(key: IesParams): seq<Token>
    requires key.HasVectors()
  {
    Framed(key.derivation.bytes) + Framed(key.encoding.bytes) + [VarInt(key.macKeySize)]
  }

  /**
   * What `write` emits, and how it ends: `bytes.length` on a `null` vector
   * throws `NullPointerException`, after whatever was written before it.
   */
  function Written(key: IesParams): (seq<Token>, Outcome) {
    if key.derivation.NullVector? then ([], Fail(NullPointerException))
    else if key.encoding.NullVector? then (Framed(key.derivation.bytes), Fail(NullPointerException))
    else (Record(key), Pass)
  }

  /** `write`: the derivation vector, the encoding vector, each with its length first, then the MAC key size. */
  method Write(output: Output, key: IesParams) returns (r: Outcome)
    modifies output
    ensures output.tokens == old(output.tokens) + Written(key).0
    ensures r == Written(key).1
  {
    var vector := key.derivation;
    if vector.NullVector? {
      return Fail(NullPointerException);
    }
    var length := |vector.bytes|;
    output.WriteVarInt(length as int32);
    output.WriteBytes(vector.bytes);

    vector := key.encoding;
    if vector.NullVector? {
      return Fail(NullPointerException);
    }
    length := |vector.bytes|;
    output.WriteVarInt(length as int32);
    output.WriteBytes(vector.bytes);

    output.WriteVarInt(key.macKeySize);
    r := Pass;
  }

  /**
   * A `null` vector fails `write` with `NullPointerException`: a `null`
   * derivation before anything is written, a `null` encoding after the
   * derivation's frame is out. Only parameters with both vectors are written
   * whole.
   */
  lemma WriteNullVector(key: IesParams)
    ensures key.derivation.NullVector? ==> Written(key) == ([], Fail(NullPointerException))
    ensures key.derivation.Vector? && key.encoding.NullVector? ==>
      Written(key) == ([VarInt(|key.derivation.bytes| as int32)] + RawBytes(key.derivation.bytes), Fail(NullPointerException))
    ensures Written(key).1 == Pass <==> key.HasVectors()
  {
  }

  /**
   * One framed byte array from `pos`: the length, `new byte[length]` (a
   * negative length is refused), then that many bytes.
   */
  function FramedAt(s: seq<Token>, pos: nat): (r: Result<(Bytes, nat)>)
    ensures r.Ok? ==> pos < r.value.1 <= |s|
  {
    var length :- VarIntAt(s, pos);
    if length.0 < 0 then Err(NegativeArraySizeException(length.0 as int))
    else BytesAt(s, length.1, length.0 as nat)
  }

  /** A framed array is read from exactly the tokens that frame it. */
  lemma FramedExact(s: seq<Token>, pos: nat)
    requires FramedAt(s, pos).Ok?
    ensures var r := FramedAt(s, pos).value;
      s[pos..r.1] == Framed(r.0)
  {
    var length := VarIntAt(s, pos).value;
    var bytes := BytesAt(s, length.1, length.0 as nat).value;
    assert s[pos..bytes.1] == [s[pos]] + s[length.1..bytes.1];
  }

  /**
   * What `read` makes of the stream from `pos`: the fields in the order `write`
   * produced them; the vectors it builds are never `null`.
   */
  function Decode(s: seq<Token>, pos: nat): (r: Result<(IesParams, nat)>)
    ensures r.Ok? ==> pos < r.value.1 <= |s| && r.value.0.HasVectors()
  {
    var derivation :- FramedAt(s, pos);
    var encoding :- FramedAt(s, derivation.1);
    var macKeySize :- VarIntAt(s, encoding.1);
    Ok((IesParams(Vector(derivation.0), Vector(encoding.0), macKeySize.0), macKeySize.1))
  }

  /**
   * `read` consumes exactly a record: when it succeeds, the tokens it read
   * are the record `write` emits for what it returns.
   */
  lemma DecodeExact(s: seq<Token>, pos: nat)
    requires Decode(s, pos).Ok?
    ensures var r := Decode(s, pos).value;
      s[pos..r.1] == Record(r.0)
  {
    var derivation := FramedAt(s, pos).value;
    var encoding := FramedAt(s, derivation.1).value;
    var macKeySize := VarIntAt(s, encoding.1).value;
    FramedExact(s, pos);
    FramedExact(s, derivation.1);
    assert s[pos..macKeySize.1] == s[pos..derivation.1] + s[derivation.1..encoding.1] + [s[encoding.1]];
  }

  /** `byte[] a = new byte[input.readInt(true)]; input.readBytes(a, 0, a.length);` */
  method ReadFramed(input: Input) returns (r: Result<Bytes>)
    requires input.Valid()
    modifies input
    ensures input.Valid()
    ensures r == FieldOf(FramedAt(input.tokens, old(input.position)))
    ensures r.Ok? ==> input.position == FramedAt(input.tokens, old(input.position)).value.1
  {
    var length := input.ReadVarInt();
    if length.Err? {
      return Err(length.error);
    }
    if length.value < 0 {
      return Err(NegativeArraySizeException(length.value as int));
    }
    var buffer := new int8[length.value as nat];
    var read := input.ReadBytes(buffer);
    if read.Fail? {
      return Err(read.error);
    }
    r := Ok(buffer[..]);
  }

  /** `read` */
  method Read(input: Input) returns (r: Result<IesParams>)
    requires input.Valid()
    modifies input
    ensures input.Valid()
    ensures r == FieldOf(Decode(input.tokens, old(input.position)))
    ensures r.Ok? ==> input.position == Decode(input.tokens, old(input.position)).value.1
  {
    var derivation := ReadFramed(input);
    if derivation.Err? {
      return Err(derivation.error);
    }
    var encoding := ReadFramed(input);
    if encoding.Err? {
      return Err(encoding.error);
    }
    var macKeySize := input.ReadVarInt();
    if macKeySize.Err? {
      return Err(macKeySize.error);
    }
    r := Ok(IesParams(Vector(derivation.value), Vector(encoding.value), macKeySize.value));
  }

  /** The serializer is not marked immutable and does not override `copy`. */
  const Immutable := false

  /** The serializer's class name, as the engine's refusal to copy gives it. */
  const SerializerClass := "dorkbox.serializers.bouncycastle.IesParametersSerializer"

  /** The engine's copy of parameters through this serializer: refused. */
  function Copy(key: IesParams): (r: Result<IesParams>)
    ensures r.Err? && r.error == KryoException("Serializer does not support copy: " + SerializerClass)
  {
    DefaultCopy(Immutable, SerializerClass, key)
  }

  /**
   * Each length prefix equals the number of raw bytes after it, and nothing
   * but the three varints and those bytes is emitted.
   */
  lemma PrefixesCountBytes(key: IesParams)
    requires key.HasVectors()
    ensures var rec := Record(key);
      var derivation, encoding := key.derivation.bytes, key.encoding.bytes;
      var d, e := |derivation|, |encoding|;
      && |rec| == d + e + 3
      && rec[0] == VarInt(d as int32)
      && rec[d + 1] == VarInt(e as int32)
      && rec[d + e + 2] == VarInt(key.macKeySize)
      && (forall i :: 1 <= i <= d ==> rec[i] == Raw(derivation[i - 1]))
      && (forall i :: d + 2 <= i <= d + e + 1 ==> rec[i] == Raw(encoding[i - d - 2]))
  {
    var rec := Record(key);
    var d := |key.derivation.bytes|;
    assert rec == Framed(key.derivation.bytes) + (Framed(key.encoding.bytes) + [VarInt(key.macKeySize)]);
    assert rec[d + 1..] == Framed(key.encoding.bytes) + [VarInt(key.macKeySize)];
  }

  /** A framed array read back wherever it sits in the stream. */
  lemma FramedRoundTrip(bytes: Bytes, before: seq<Token>, after: seq<Token>)
    ensures FramedAt(before + Framed(bytes) + after, |before|) == Ok((bytes, |before| + 1 + |bytes|))
  {
    var s := before + Framed(bytes) + after;
    var start := |before| + 1;
    assert s[|before|] == VarInt(|bytes| as int32);
    assert s[start..start + |bytes|] == RawBytes(bytes);
    var r := BytesAt(s, start, |bytes|);
    assert r.Ok?;
    RawBytesInjective(r.value.0, bytes);
  }

  /** Different byte arrays emit different raw tokens. */
  lemma RawBytesInjective(a: seq<int8>, b: seq<int8>)
    requires RawBytes(a) == RawBytes(b)
    ensures a == b
  {
    assert |a| == |RawBytes(a)|;
    forall i | 0 <= i < |a|
      ensures a[i] == b[i]
    {
      assert RawBytes(a)[i] == Raw(a[i]);
    }
  }

  /**
   * Round trip: `read` of the record `write` emits, wherever it sits in the
   * stream, restores both vectors (empty ones included) and the MAC key size,
   * and stops right after the record, leaving what follows untouched.
   */
  lemma RoundTrip(key: IesParams, before: seq<Token>, after: seq<Token>)
    requires key.HasVectors()
    ensures Decode(before + Record(key) + after, |before|) == Ok((key, |before| + |Record(key)|))
  {
    var s := before + Record(key) + after;
    var d := Framed(key.derivation.bytes);
    var e := Framed(key.encoding.bytes);
    var mac := [VarInt(key.macKeySize)];
    var mid := |before| + |d|;
    var end := mid + |e|;
    assert |Record(key)| == |d| + |e| + 1;
    assert FramedAt(s, |before|) == Ok((key.derivation.bytes, mid)) by {
      assert s == before + d + (e + mac + after);
      FramedRoundTrip(key.derivation.bytes, before, e + mac + after);
    }
    assert FramedAt(s, mid) == Ok((key.encoding.bytes, end)) by {
      assert s == (before + d) + e + (mac + after);
      FramedRoundTrip(key.encoding.bytes, before + d, mac + after);
    }
    assert VarIntAt(s, end) == Ok((key.macKeySize, end + 1)) by {
      assert s == (before + d + e) + mac + after;
    }
  }

  /** Writes parameters with both vectors to a fresh output and reads them back unchanged. */
  method WriteThenRead(key: IesParams) returns (back: Result<IesParams>)
    requires key.HasVectors()
    ensures back == Ok(key)
  {
    var output := new Output();
    var _ := Write(output, key);
    var input := new Input(output.tokens);
    back := Read(input);
    RoundTrip(key, [], []);
    assert output.tokens == [] + Record(key) + [];
  }
}
