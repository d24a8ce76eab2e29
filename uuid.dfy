/**
 * `UUIDSerializer`: the codec for `java.util.UUID`. The record is the most
 * significant 64 bits, then the least significant 64 bits, each as a fixed
 * eight-byte long. The serializer is marked immutable.
 */
module UUIDs {
  import opened Java
  import opened Kryo

  /** `java.util.UUID`: its two 64-bit halves. */
  datatype UUID = UUID(mostSigBits: int64, leastSigBits: int64)

  /** The record `write` emits. */
  function Record(uuid: UUID): seq<Token> {
    [Fixed64(uuid.mostSigBits), Fixed64(uuid.leastSigBits)]
  }

  /** `write`: the most significant half, then the least significant half. */
  method Write(output: Output, uuid: UUID)
    modifies output
    ensures output.tokens == old(output.tokens) + Record(uuid)
  {
    output.WriteLong(uuid.mostSigBits);
    output.WriteLong(uuid.leastSigBits);
  }

  /** What `read` makes of the stream from `pos`: the first long is the most significant half. */
  function Decode(s: seq<Token>, pos: nat): (r: Result<(UUID, nat)>)
    ensures r.Ok? <==> pos + 2 <= |s| && s[pos].Fixed64? && s[pos + 1].Fixed64?
    ensures r.Ok? ==> r.value.1 == pos + 2 && s[pos..pos + 2] == Record(r.value.0)
  {
    var most :- LongAt(s, pos);
    var least :- LongAt(s, most.1);
    Ok((UUID(most.0, least.0), least.1))
  }

  /** `read`: `UUID(input.readLong(), input.readLong())`, the arguments read left to right. */
  method Read(input: Input) returns (r: Result<UUID>)
    requires input.Valid()
    modifies input
    ensures input.Valid()
    ensures r == FieldOf(Decode(input.tokens, old(input.position)))
    ensures r.Ok? ==> input.position == old(input.position) + 2
  {
    var most := input.ReadLong();
    if most.Err? {
      return Err(most.error);
    }
    var least := input.ReadLong();
    if least.Err? {
      return Err(least.error);
    }
    r := Ok(UUID(most.value, least.value));
  }

  /** The serializer sets `isImmutable = true` when constructed. */
  const Immutable := true

  /** The engine's copy of a UUID through this serializer. */
  function Copy(uuid: UUID): (r: Result<UUID>)
    ensures r == Ok(uuid)
  {
    DefaultCopy(Immutable, "dorkbox.serializers.UUIDSerializer", uuid)
  }

  /**
   * Round trip: `read` of the record `write` emits, wherever it sits in the
   * stream, restores both halves and consumes exactly the two longs.
   */
  lemma RoundTrip(uuid: UUID, before: seq<Token>, after: seq<Token>)
    ensures Decode(before + Record(uuid) + after, |before|) == Ok((uuid, |before| + 2))
  {
    var s := before + Record(uuid) + after;
    assert s[|before|] == Fixed64(uuid.mostSigBits);
    assert s[|before| + 1] == Fixed64(uuid.leastSigBits);
  }

  /** Writes a UUID to a fresh output and reads it back unchanged. */
  method WriteThenRead(uuid: UUID) returns (back: Result<UUID>)
    ensures back == Ok(uuid)
  {
    var output := new Output();
    Write(output, uuid);
    var input := new Input(output.tokens);
    back := Read(input);
    RoundTrip(uuid, [], []);
    assert output.tokens == [] + Record(uuid) + [];
  }
}
